# TransitFlow: a verified model

TransitFlow counts the people waiting at public transport stops with cameras on edge devices, predicts
how full each vehicle will be along its route, and ships new detection models to the devices. This
project models the parts of it where a wrong step would be silent, and proves what they promise for
every input and every run. `dafny verify dfyconfig.toml` checks all of it.

## What is modelled

**The crowd simulation and its read-back.** `Simulation` specifies the sequential simulation of one
route as functions; `Engine` is the same code with its nested loops over one mutable array of waiting
passengers, proved equal to the specification. `Relief` compares two runs (an extra vehicle, a bigger
or emptier one, quieter stops, a larger alighting fraction), `Pressure` bounds what more waiting people
cost, `Laws` proves independence of input order, dependence on the vehicles
ahead only, conservation of passengers and soundness of every recorded load, `Stranded` says what the
stranded dictionary is worth, and `Reference` says what a prediction is by conditions on the result
alone, which exactly one result meets. `PredictionTable` and `Queries` are the flat rows of the database and the
loop that rebuilds a result from them; `ReadBack` and `ReadBackStops` prove that writing and reading is
the identity on what is shown, `LatestPredictions` that the overview of all routes, which repeats the
loop in code of its own, says the same as the endpoint of each route, and `PredictionCycle` that after a
whole cycle over many routes both show every route as it was predicted.

**Chunked model transfer and install.** `Wire` holds the binary frames, `Images` the camera images that
share them, `Receiver` the reassembly on
the edge device (a class, proved against a step function over messages), `ReceiverSafety` what holds
over any message sequence, `Delivery` that a transfer arrives, `Distributor` the sending side with its
ACK wait and retry, `ModelManager` the swap of model files. SHA-256 (FIPS 180-4) and JSON are function
parameters: of the hash only the digest length of 32 bytes is used, of JSON only that decoding undoes
encoding. Nothing about order or loss of messages is assumed except where a lemma says so.

**The reactive prediction loop.** `PredictionLoop` is the trailing debounce with its periodic fallback,
as a state machine over iterations whose clock readings and notifications come from the environment,
with an arbitrary bound `slack` on scheduling delay. `Triggers` connects it with the writers whose
notifications it hears.

**Crowd shares and database state.** `CrowdShares` is the split of a stop's crowd by inverse arrival
time and `SnapshotBuilder` the snapshot made from it, up to the account that the predictions of all routes
together give of the crowd at a stop; `CountLog` is the count log with its latest-value table,
`Transactions` PostgreSQL transactions with savepoints, `BatchInsert` the batch insert under savepoints,
`Retention` the purge and the fetch cycle.

`Prelude`, `Rounding`, `Ordering` and `Snapshots` are shared vocabulary: Python's string order, half-even
rounding, stable sorting, and the frozen input and output records.

## Where the code and its promises part

The model follows the code. These are the places where that matters, each with its lemma.

- The documentation says that missing chunks named in an error ACK are retried (docs/SYSTEM.md:378). An
  error ACK can only name missing chunks when as many indices beyond the end were accepted, and the
  receiver never forgets those before the next meta, so no retry succeeds:
  `ReceiverSafety.ResendingMissingChunksIsFutile`, `Distributor.RetryNeverSucceeds`. A chunk of an earlier
  transfer that is only late brings this about: `Distributor.LateChunkDefeatsTransfer`.
- The documentation says that a model version is registered on a success ACK (docs/DATABASE.md:634). The
  broker looks for status "ok", which no receiver sends: `Distributor.NoAckRegistersVersion`.
- A chunk that is lost is never asked for again: the receiver stays silent and the distributor times out:
  `Delivery.DeliveredIffCovered`, `Distributor.DistributionSucceedsUnlessTimeout`.
- An empty model file announces no chunks and is never acknowledged: `Distributor.EmptyFileTimesOut`.
- The stops of a route may repeat an id as far as the schema goes (its key is the sequence number). The
  stranded dictionary is faithful exactly when they do not: `Stranded.ReportsIffDistinct`.
- A route of a single stop yields an empty result that forgets who waits there. This is the only
  exception to conservation: `Laws.PassengersConserved`.
- The API only sees rows of visited stops, so it shows all the stranded passengers exactly when every stop
  where someone waits lies before the terminus and at or after the entry stop of some vehicle:
  `ReadBackStops.StrandedWhollyShownIff`. Nobody boards at the terminus, so everyone waiting there is
  stranded and never shown: `ReadBackStops.TerminusStrandedUnseen`.
- A route that stores nothing in a cycle keeps showing its last prediction, however old:
  `PredictionCycle.UnstoredRouteStaysAsItWas`.
- A failed backup copy during an install makes the rollback fall back to the backup before it:
  `ModelManager.InstallUnderFault`.
- A route without a live arrival at a stop, because it has passed or the feed has none, is shown the whole
  crowd there. So the shares over all routes that call at a stop add up to one exactly when each of them has
  a live arrival or there is only one: `CrowdShares.AllSharesTotal`.
- The latest-value row of a device keeps the stop it was first logged at. The repository itself gives every
  stop a device of the same id (src/Backend/Database/seed.py:95-128) and moves none, but when the stops table
  is edited from outside, the row stays with the old stop: `CountLog.RowKeepsFirstStop`,
  `CountLog.MovedDeviceKeepsStop`.

## Model

| member | source | states |
|---|---|---|
| Rounding.NearestEvenUnique | src/Backend/PredictionEngine/engine.py:109 | Python's `round` is the one function that returns a nearest integer and the even one on ties |
| Rounding.ShareSlope | src/Backend/PredictionEngine/engine.py:109-110 | growing a load by d grows its rounded share by between 0 and d, ties and all |
| Rounding.Round4IsStoredRate | src/Backend/Database/writer.py:440-445 | the stored rate times 10000 is the integer nearest to ten thousand times the exact one, ties to even |
| Rounding.StoredRateIsClose | src/Backend/Database/writer.py:440-445 | such a rate is the only one and within 1/20000 of the exact one |
| Ordering.SortKeepsTies | src/Backend/PredictionEngine/engine.py:76-79 | the sort is stable: members that compare equal keep their order |
| Prelude.StringLeIff | src/Backend/PredictionEngine/engine.py:78 | strings compare by the first character that differs, a proper prefix first |
| Engine.PredictionEngine.IndexStops | src/Backend/PredictionEngine/engine.py:65-73 | each sequence number indexes its last stop; the waiting array holds the counts with unknown as 0 |
| Engine.PredictionEngine.VisitStop | src/Backend/PredictionEngine/engine.py:108-130 | alight, board what fits, record the departure; only this stop's waiting changes, by those who board |
| Engine.PredictionEngine.Walk | src/Backend/PredictionEngine/engine.py:100-134 | the loop visits exactly the stops from entry to the one before the terminus and leaves the array and list of the whole ride |
| Engine.PredictionEngine.ServeVehicle | src/Backend/PredictionEngine/engine.py:85-156 | a vehicle off the route or without capacity changes nothing; otherwise its entry and the array after it |
| Engine.PredictionEngine.ServeAll | src/Backend/PredictionEngine/engine.py:85-156 | the loop over the sorted vehicles serves each from what the ones before left waiting |
| Engine.PredictionEngine.CollectStranded | src/Backend/PredictionEngine/engine.py:169-173 | the dictionary of positive leftovers, a repeated id overwriting |
| Engine.PredictionEngine.PredictRoute | src/Backend/PredictionEngine/engine.py:39-180 | the imperative simulation computes the specified prediction for every snapshot and fraction, early return included |
| Simulation.LeftByTwoGroups | src/Backend/PredictionEngine/engine.py:85-116 | serving two groups one after the other is serving them together |
| Simulation.PredictTwoGroups | src/Backend/PredictionEngine/engine.py:85-156 | the entries of two groups are the first group's, then the second's on what the first left |
| Stranded.StrandedMapEntries | src/Backend/PredictionEngine/engine.py:169-173 | with distinct stop ids the dictionary is the leftover array restricted to positive counts |
| Stranded.ReportsIffDistinct | src/Backend/PredictionEngine/engine.py:169-173 | the dictionary reports every possible leftover if and only if no stop id repeats |
| Stranded.SumOfStranded | src/Backend/PredictionEngine/engine.py:169-173 | the values of the dictionary add up to all who are left over |
| Relief.ByFractionIsGentle | src/Backend/PredictionEngine/engine.py:108-111 | for a fraction in [0,1], more passengers leave more on board after alighting, by no more than the difference |
| Relief.LegRelief | src/Backend/PredictionEngine/engine.py:108-116 | at one stop, less waiting, at least as many alighting, and a load ahead by at most the extra capacity stay so through rounding and boarding |
| Relief.LegsRelief | src/Backend/PredictionEngine/engine.py:105-116 | the same over a vehicle's whole walk, stop by stop |
| Relief.LargerFractionIsQuicker | src/Backend/PredictionEngine/engine.py:108-111 | at every load, negative ones included, a larger fraction lets at least as many off after rounding |
| Relief.FleetRelief | src/Backend/PredictionEngine/engine.py:85-116 | the same over two fleets of which one is improved and enlarged at any positions |
| Relief.FrontToBackRelieves | src/Backend/PredictionEngine/engine.py:75-79 | sorting front to back preserves the comparison, wherever in the snapshot the vehicles were added or improved |
| Relief.EasingStrandsNoMore | src/Backend/PredictionEngine/engine.py:75-173 | any mix of added vehicles, more capacity, fewer passengers, fewer waiting and a larger alighting fraction strands no more at any stop nor in total |
| Relief.AddingVehicleStrandsNoMore | src/Backend/PredictionEngine/engine.py:75-173 | one more vehicle anywhere in the snapshot strands no more at any stop nor in total, for any fraction in [0,1] |
| Relief.ImprovingVehicleStrandsNoMore | src/Backend/PredictionEngine/engine.py:100-116 | raising a capacity, lowering starting passengers or lowering waiting strands no more at any stop nor in total |
| Relief.LargerFractionStrandsNoMore | src/Backend/PredictionEngine/engine.py:108-116 | a larger alighting fraction strands no more at any stop nor in total |
| Pressure.BoardsNoFewer | src/Backend/PredictionEngine/engine.py:105-116 | with more waiting at its stops a vehicle boards no fewer passengers over its whole walk |
| Pressure.MoreWaitingStrandsNoMoreThanThose | src/Backend/PredictionEngine/engine.py:75-173 | n more people waiting, wherever they wait, strand no fewer at any stop and at most n more in total |
| Laws.InputOrderIrrelevant | src/Backend/PredictionEngine/engine.py:75-79 | the result is the same for every ordering of the input vehicles |
| Laws.FrontToBackSplits | src/Backend/PredictionEngine/engine.py:75-79 | the sorted fleet is the sorted vehicles up to any one of them, then the sorted rest |
| Laws.OnlyVehiclesAheadMatter | src/Backend/PredictionEngine/engine.py:75-116 | a vehicle's entry is unchanged by anything that happens to the vehicles sorted behind it |
| Laws.FleetConserves | src/Backend/PredictionEngine/engine.py:113-116 | at each stop, boarded plus left over is what was waiting, whatever the fleet and the alighting rule |
| Laws.PassengersConserved | src/Backend/PredictionEngine/engine.py:57-173 | boarded plus stranded is waiting at every stop, if and only if the route is not a single stop with people at it |
| Laws.TotalsBalance | src/Backend/PredictionEngine/engine.py:65-173 | the totals over all stops balance |
| Laws.PeakLoadIsPeak | src/Backend/PredictionEngine/engine.py:139 | the peak load occurs at some stop and no stop exceeds it |
| Laws.LoadsAreSound | src/Backend/PredictionEngine/engine.py:100-156 | every entry is some vehicle's ride over its stops to the terminus; each load is the previous less alighted plus boarded, never negative, within capacity once within, and never rising while above |
| Laws.EntryExactlyWhenJoins | src/Backend/PredictionEngine/engine.py:85-98 | a vehicle has exactly one entry if its stop is on the route before the terminus and it has capacity, none otherwise |
| Reference.ServiceOrderIsFrontToBack | src/Backend/PredictionEngine/engine.py:75-79 | the sorted fleet is the one rearrangement with larger sequence numbers first and ties by id |
| Reference.AlightingFits | src/Backend/PredictionEngine/engine.py:108-110 | for any load and fraction, those who alight are the nearest integer to their product, ties to even, but at most the load |
| Reference.RideFitsIff | src/Backend/PredictionEngine/engine.py:105-134 | a list of records is a vehicle's ride if and only if at each stop the rounded fraction leaves and then all who wait and fit board |
| Reference.EntryFitsIff | src/Backend/PredictionEngine/engine.py:85-156 | an entry is the vehicle's if and only if its ride, peak, occupancy and confidence fit what the entries before it left waiting |
| Reference.PredictionIsTheOnlyOne | src/Backend/PredictionEngine/engine.py:39-180 | a result is the computed prediction if and only if it meets all the conditions, which mention only the snapshot and the result; for routes of any length, and any fraction and loads |
| Reference.StrandedOnlyBesideFullVehicles | src/Backend/PredictionEngine/engine.py:113-116 | where someone is stranded, every vehicle that calls leaves with no room |
| PredictionTable.PredictionStore.InsertVehicle | src/Backend/Database/writer.py:415-448 | one row per stop in order, up to the statement that raises |
| PredictionTable.PredictionStore.WritePredictions | src/Backend/Database/writer.py:402-461 | all rows and one notification, or nothing at all if any insert, the notification or the commit raises; an empty result notifies nobody |
| ReadBack.RowsRecordResult | src/Backend/Database/writer.py:414-448 | the table gets one row for each stop of each vehicle in order, and each column says what the result says, with occupancy and confidence to four decimal places |
| Queries.PredictionQueries.QueryPredictionsForRoute | src/Backend/API/queries.py:526-575 | the one-pass loop over dictionaries returns, per vehicle and per stop, what the group of its rows says |
| ReadBack.ResultIsWellFormed | src/Backend/PredictionEngine/engine.py:85-156 | a result has one entry per vehicle id, each riding a stretch of the route with a true peak |
| ReadBack.SelectionIsCanonical | src/Backend/API/queries.py:515-524 | ORDER BY vehicle and sequence leaves exactly one possible order of the written rows, for any collation |
| ReadBack.VehiclesReadBack | src/Backend/API/queries.py:530-551 | grouping the rows gives back each vehicle with its stop list, and its peak rounded as stored |
| ReadBackStops.StopsReadBack | src/Backend/API/queries.py:552-558 | the stop list read back is the visited stops in route order |
| ReadBackStops.StrandedReadBack | src/Backend/API/queries.py:559-569 | waiting less boarded, rebuilt from the rows, is the engine's stranded map restricted to visited stops |
| ReadBackStops.WrittenThenReadBack | src/Backend/API/queries.py:501-575 | writing a non-empty prediction after earlier ones, followed by any rows of other routes, and reading the latest back gives the engine's vehicles by id, the visited stops in route order and the stranded map restricted to them |
| ReadBackStops.ReadBackVehicles | src/Backend/API/queries.py:501-551 | field by field, the vehicles read back are the predicted ones by id, each with its stops and with peak and confidence to four decimal places |
| ReadBackStops.ReadBackStopList | src/Backend/API/queries.py:552-558 | the stops shown come in route order, each with its number and what was known of the people waiting, and every stop where a predicted vehicle calls is among them |
| ReadBackStops.TerminusStrandedUnseen | src/Backend/PredictionEngine/engine.py:105-107 | all who wait at the terminus are stranded, and the map read back never holds the terminus |
| ReadBackStops.VisitedIsReached | src/Backend/PredictionEngine/engine.py:86-107 | some entry visits a stop if and only if the stop lies before the terminus and some vehicle joins at or before it |
| ReadBackStops.StrandedWhollyShownIff | src/Backend/API/queries.py:559-569 | the map read back is the engine's whole map if and only if every stop where someone waits lies before the terminus and at or after the entry stop of some vehicle that joins |
| LatestPredictions.OverviewQueries.Aggregate | src/Backend/API/queries.py:450-497 | the overview's own loop over one route's rows returns, per vehicle, what the group of its rows says, and the stranded counts |
| LatestPredictions.OverviewQueries.QueryPredictionsLatest | src/Backend/API/queries.py:426-498 | one entry per route and direction, in the order of the first query |
| LatestPredictions.EndpointsAgree | src/Backend/API/queries.py:450-575 | on the same rows the overview and the route endpoint list the same vehicles, stops, peaks and stranded counts |
| PredictionCycle.RunTurn | src/Backend/runtime_supervisor.py:193-204 | one route's turn adds its rows, or nothing without a snapshot, without vehicles, or if the write fails |
| PredictionCycle.RunCycle | src/Backend/runtime_supervisor.py:190-210 | a cycle adds what its turns add, in order |
| PredictionCycle.StoredExactlyWhen | src/Backend/runtime_supervisor.py:193-204 | a turn stores something if and only if some vehicle can carry somebody to a stop before the terminus and no statement of the write raises, and then a row for every stop of every vehicle |
| PredictionCycle.CycleNotifies | src/Backend/Database/writer.py:449-450 | a cycle adds a notification just when it stores something, and none but "predictions" |
| PredictionCycle.CycleReadBack | src/Backend/API/queries.py:501-575 | after a cycle over any routes, every route whose prediction was stored is read back as predicted, wherever its turn came |
| PredictionCycle.ServedRouteIsReadBack | src/Backend/runtime_supervisor.py:190-210 | every route in service whose write does not fail is read back after the cycle as it was predicted |
| PredictionCycle.StoredIsReadable | src/Backend/API/queries.py:504-524 | after a cycle the two statements return some rows for every stored route |
| PredictionCycle.UnstoredRouteStaysAsItWas | src/Backend/runtime_supervisor.py:196-202 | a route that stores nothing in a cycle is read exactly as before it |
| PredictionCycle.OverviewShowsCycle | src/Backend/API/queries.py:426-498 | after a cycle the overview has exactly one entry for each stored route, showing the engine's prediction |
| PredictionCycle.OverviewSays | src/Backend/API/queries.py:426-498 | field by field, the overview of a stored route has the time of its write and lists the predicted vehicles by id, with who waited at each stop |
| Wire.UnpackOfPack | src/Backend/MQTTBroker/model_distributor.py:93 | unpacking undoes packing for every 32-bit number |
| Wire.PackOfUnpack | src/Edge/model_receiver.py:88 | every four bytes are the packing of what they unpack to |
| Wire.BigEndian | src/Backend/MQTTBroker/model_distributor.py:93 | packed numbers compare as byte strings the way the numbers do: the most significant byte comes first |
| Wire.ChunkRoundTrip | src/Backend/MQTTBroker/model_distributor.py:91-96 | for every 32-bit index, 32-byte hash and data the receiver recovers what was packed after the type byte is stripped |
| Wire.ChunkParsedIsPacked | src/Edge/model_receiver.py:84-90 | whatever parses as a chunk is the packing of its parts |
| Wire.ChunkLayout | src/Backend/MQTTBroker/model_distributor.py:91-96 | a chunk message is the byte 2, four bytes of index, 32 bytes of hash and the data |
| Wire.DispatchByType | src/Edge/comms.py:176-196 | a message is a meta if its first byte is 1, a chunk if it is 2, and ignored otherwise |
| Wire.ImageRoundTrip | src/Edge/comms.py:227-229 | a payload splits into these header bytes and image bytes if and only if it is their frame |
| Wire.ImageLayout | src/Edge/comms.py:227-229 | an image message is four bytes of header length, the header and the image |
| Images.Device.SendImage | src/Edge/comms.py:211-237 | publishes the frame of the encoded header and the image, or raises if the header's length does not fit in 32 bits |
| Images.Broker.HandleImage | src/Backend/MQTTBroker/broker_handler.py:174-203 | stores the image with its header unless the payload is short, truncated or its header does not decode |
| Images.ReceivedIff | src/Backend/MQTTBroker/broker_handler.py:174-191 | an image is stored with a header if and only if the payload is a frame of it and of bytes that decode to that header |
| Images.SentImagesAreStored | src/Backend/MQTTBroker/broker_handler.py:174-203 | all images that are sent are stored with their headers, in the order of sending |
| Receiver.ModelReceiver.HandleMeta | src/Edge/model_receiver.py:54-77 | fields are stored one by one until a key is missing; only a complete meta starts a transfer |
| Receiver.ModelReceiver.HandleChunk | src/Edge/model_receiver.py:79-121 | short, corrupt and idle chunks change nothing; an intact one is kept, and assembly fires when the count equals the total |
| Receiver.ModelReceiver.AssembleAndVerify | src/Edge/model_receiver.py:125-174 | joins the files in order; a missing file or a wrong hash sends an error ACK and keeps the state, success sends an ACK, resets and hands over |
| Receiver.ModelReceiver.SendErrorAck | src/Edge/model_receiver.py:186-194 | lists the indices below the total that are missing, ascending |
| Receiver.ModelReceiver.HandleModel | src/Edge/comms.py:176-196 | dispatches on the type byte and ignores everything else |
| ReceiverSafety.MetaStoresFields | src/Edge/model_receiver.py:54-77 | each field is stored if its key and those before it are there; only a meta with all five starts a transfer, with nothing received |
| ReceiverSafety.ChunkIsKept | src/Edge/model_receiver.py:107-119 | an intact chunk is kept and nothing is sent while the number accepted is not the total |
| ReceiverSafety.FullCountSendsOneAck | src/Edge/model_receiver.py:120-174 | when it is, one ACK is sent: a success with the joined file if all files are there and have the announced hash, otherwise, for a missing file or a wrong hash, an error that lists the missing indices in ascending order |
| ReceiverSafety.ConsistencyKept | src/Edge/model_receiver.py:107-111 | the files on disk are exactly the accepted indices, after any message |
| ReceiverSafety.Pigeonhole | src/Edge/model_receiver.py:120-121 | of n accepted indices as many are n or above as are missing below n |
| ReceiverSafety.ErrorAckCountsOutOfRange | src/Edge/model_receiver.py:186-194 | an error ACK lists exactly the missing indices, and there are as many as accepted indices at or above the total |
| ReceiverSafety.SuccessMeansExactlyAll | src/Edge/model_receiver.py:120-174 | success is sent only when the accepted indices are exactly 0 to total - 1, with a file that has the expected hash |
| ReceiverSafety.AcceptedSinceMeta | src/Edge/model_receiver.py:107-111 | between a meta and the next success the accepted indices are those of the intact chunks received |
| ReceiverSafety.NoSuccessAfterOutOfRange | src/Edge/model_receiver.py:111-148 | once an index at or above the total is accepted, no success or hand-over comes before the next meta |
| ReceiverSafety.ResendingMissingChunksIsFutile | src/Edge/model_receiver.py:144-148 | after an error ACK naming missing chunks, no messages other than a meta lead to a success |
| ReceiverSafety.HandedOverMatchesLatestMeta | src/Edge/model_receiver.py:150-174 | over any messages, a file handed over hashes to the sha256 of the latest meta |
| ReceiverSafety.HandedOverWasOffered | src/Edge/model_receiver.py:150-174 | however transfers interleave, a file handed over is one that was offered, or two byte strings with equal hash exist |
| ReceiverSafety.HandOversAtMostMetas | src/Edge/model_receiver.py:208-211 | over any messages, hand-overs never outnumber complete metas |
| Delivery.JoinedChunks | src/Edge/model_receiver.py:138-143 | the chunk files of a file, joined, are the file up to there |
| Delivery.WholeFile | src/Backend/MQTTBroker/model_distributor.py:57-58 | the announced number of chunks covers the file |
| Delivery.TotalIsLeast | src/Backend/MQTTBroker/model_distributor.py:57-58 | the number of chunks is the one that covers the file with less than a chunk to spare |
| Delivery.ChunkHolds | src/Backend/MQTTBroker/model_distributor.py:86-89 | chunk i is the chunkSize bytes of the file from i * chunkSize on, or what is left of them in the last |
| Delivery.TransferDelivers | src/Edge/model_receiver.py:79-174 | from any state, after the meta of a non-empty file, its chunks in any order with duplicates and corrupted copies give one ACK, a success, and hand over the original file once |
| Delivery.DeliveredIffCovered | src/Edge/model_receiver.py:79-174 | when chunks may also be lost, the file is acknowledged and handed over if and only if each chunk arrives at least once, and otherwise nothing is sent |
| Delivery.NothingExpectedNothingSent | src/Edge/model_receiver.py:120-121 | a meta that announces no chunks is never answered |
| Delivery.AcknowledgedIffNonEmpty | src/Backend/MQTTBroker/model_distributor.py:54-102 | what the distributor publishes is acknowledged, with success, if and only if the file is not empty |
| Distributor.AcksRoundTrip | src/Backend/MQTTBroker/broker_handler.py:250-278 | every ACK that is sent is parsed back, in order |
| Distributor.NoAckRegistersVersion | src/Backend/MQTTBroker/broker_handler.py:264 | no ACK of a receiver ever has status "ok", with which alone a model version is registered |
| Distributor.ModelDistributor.OnModelAck | src/Backend/MQTTBroker/model_distributor.py:35-42 | the latest ACK is stored and the event set |
| Distributor.ModelDistributor.PublishChunks | src/Backend/MQTTBroker/model_distributor.py:85-102 | every chunk is published in order, up to an index that does not fit in 32 bits |
| Distributor.ModelDistributor.DistributeModel | src/Backend/MQTTBroker/model_distributor.py:44-139 | exactly what is published and returned for any ACKs that arrive, with timeouts, errors and retries |
| Distributor.ModelDistributor.RetryChunks | src/Backend/MQTTBroker/model_distributor.py:141-186 | re-sends the missing chunks; ACKs that arrive before the late clear are lost |
| Distributor.TrueIff | src/Backend/MQTTBroker/model_distributor.py:104-139 | the call returns True if and only if the last ACK before the read says "success", or it names missing chunks that all fit in 32 bits and the last ACK after the retry says so |
| Distributor.RaisesIff | src/Backend/MQTTBroker/model_distributor.py:93 | the call raises if and only if an index to be published or retried does not fit in 32 bits |
| Distributor.RetriedAreMissing | src/Backend/MQTTBroker/model_distributor.py:148-163 | the retry sends the missing chunks, in order and as they were published |
| Distributor.MetaAnnounces | src/Backend/MQTTBroker/model_distributor.py:54-77 | the meta message has type 1 and announces name, number of chunks, size, hash and chunk size |
| Distributor.AckFrames | src/Edge/model_receiver.py:176-205 | ACKs have type 3 and say "success", or "error" with the missing indices |
| Distributor.TrueMeansHandedOver | src/Backend/MQTTBroker/model_distributor.py:104-139 | for any messages but a meta after this one, True means that an ACK that was read says "success" and that the receiver handed over a file with the hash of the one sent |
| Distributor.DistributionSucceedsUnlessTimeout | src/Backend/MQTTBroker/model_distributor.py:54-123 | from an empty channel, for a non-empty file whose chunks arrive in any order, duplicated, corrupted or lost, the call returns True if and only if it does not time out; the file is handed over exactly when every chunk arrives, and always when the call returns True |
| Distributor.RetryNeverSucceeds | src/Backend/MQTTBroker/model_distributor.py:134-186 | after an error ACK the call does not return True, whatever part of the retry arrives; if the ACK names no missing chunk it returns False |
| Distributor.LateChunkDefeatsTransfer | src/Edge/model_receiver.py:111-148 | from any state, a late chunk of an earlier, larger transfer after the meta of a one-chunk file gives exactly an error ACK naming chunk 0; chunk 0, however often it then comes, changes nothing, and the call returns False |
| Distributor.LateChunkExample | src/Edge/model_receiver.py:111-148 | a concrete pair of files for which this happens to a receiver that has just started |
| Distributor.EmptyFileTimesOut | src/Backend/MQTTBroker/model_distributor.py:106-109 | for an empty file the call returns False |
| ModelManager.Manager.TryInstall | src/Edge/model_manager.py:73-84 | the state at the step that raises, for each step |
| ModelManager.Manager.InstallNewModel | src/Edge/model_manager.py:54-94 | files, loaded model and pause after an install, with or without a fault |
| ModelManager.Manager.RollBack | src/Edge/model_manager.py:96-111 | restores the backup and reloads it; does nothing without one |
| ModelManager.CrowdCounter.ReloadModel | src/Edge/inference.py:80-85 | a file that does not load leaves the old model in use |
| ModelManager.InstallUsesNewOrPrevious | src/Edge/model_manager.py:54-111 | an install ends unpaused with a loadable current file that is the loaded one: the new file if it loads, otherwise the previous one |
| ModelManager.InstallUnderFault | src/Edge/model_manager.py:73-111 | if one step raises without effect, current and loaded agree if and only if that step was not the backup copy over an unusable older backup |
| ModelManager.FirstInstall | src/Edge/model_manager.py:54-111 | on a device without a current file, current and loaded agree if and only if the new file loads and nothing fails, or the backup loads, or there is no backup and the file stays in place and runs |
| ModelManager.AgreementOverRuns | src/Edge/model_manager.py:54-111 | over any run of installs with at most one fault each, current and loaded agree and nothing stays paused |
| ModelManager.NewestLoadableIsUsed | src/Edge/model_manager.py:54-94 | after any run of faultless installs, the newest file that loads is in use |
| ModelManager.RunningModelWasOffered | src/Edge/model_manager.py:54-94 | whatever messages reach the device, the running model loads and was offered, or is the initial one, or two byte strings with equal hash exist |
| PredictionLoop.PredictionThread.SelectTimeout | src/Backend/runtime_supervisor.py:224-229 | the sleep is at most a second, the time to the deadline and the time to the next period, and is one of them |
| PredictionLoop.PredictionThread.PopNotices | src/Backend/runtime_supervisor.py:237-243 | only triggers set the deadline, and the last one popped decides it |
| PredictionLoop.PredictionThread.Iterate | src/Backend/runtime_supervisor.py:223-256 | one iteration: drain, decide, and run at most one cycle, which clears the pending trigger |
| PredictionLoop.PredictionThread.Run | src/Backend/runtime_supervisor.py:223-256 | any number of iterations run the specified cycles |
| PredictionLoop.PendingIffDeadline | src/Backend/runtime_supervisor.py:220-256 | throughout any run, a trigger is pending if and only if a deadline is set |
| PredictionLoop.NextCycleInTime | src/Backend/runtime_supervisor.py:228-256 | however often triggers push the deadline back, the next cycle starts within the interval plus slack |
| PredictionLoop.CyclesKeepTheirDistance | src/Backend/runtime_supervisor.py:246-256 | cycles start at least min(debounce, interval) and at most interval plus slack after the one before ended |
| PredictionLoop.EveryTriggerIsServed | src/Backend/runtime_supervisor.py:239-256 | every trigger popped in a run is followed by a cycle that starts after it, within the interval plus slack |
| PredictionLoop.QuietTriggerServedAtDeadline | src/Backend/runtime_supervisor.py:226-251 | once triggers stop, the pending one is served by its deadline plus slack |
| PredictionLoop.WithoutTriggersOnlyPeriodic | src/Backend/runtime_supervisor.py:252-256 | without triggers every cycle is periodic, at least one interval after the one before |
| PredictionLoop.OwnNotificationsDoNotWake | src/Backend/runtime_supervisor.py:67 | a run that hears only the notifications of its own cycles runs periodic cycles only |
| PredictionLoop.DebouncedCycleWaitsForQuiet | src/Backend/runtime_supervisor.py:239-251 | a debounced cycle starts only after every earlier trigger is a full debounce period old |
| PredictionLoop.CycleExactlyWhen | src/Backend/runtime_supervisor.py:223-256 | in any run, an iteration runs a cycle if and only if the last crowd count or trip update popped since the last cycle is a debounce period old, or the interval has passed since that cycle ended |
| Triggers.LoggedCountIsServed | src/Backend/runtime_supervisor.py:67 | a crowd count that enters the log is followed by a cycle in time, once its notification is popped |
| Triggers.StoredUpdatesAreServed | src/Backend/runtime_supervisor.py:67 | so is a batch of trip updates of which at least one is stored |
| Triggers.WritersNotify | src/Backend/Database/writer.py:93-96 | every logged count and every batch with a stored update sends a notification, and nothing else does |
| Triggers.StoredPredictionsDoNotWake | src/Backend/runtime_supervisor.py:67 | a run that hears only what storing predictions sends runs periodic cycles only |
| CrowdShares.ProportionalSplitLoop | src/Backend/PredictionEngine/snapshot_builder.py:60-72 | the target's inverse arrival time over the sum of all, or 1 if it is absent |
| CrowdShares.GroupRows | src/Backend/PredictionEngine/snapshot_builder.py:267-270 | each stop's dictionary holds its own rows, later rows replacing earlier ones of the same route |
| CrowdShares.LiveEtas | src/Backend/PredictionEngine/snapshot_builder.py:281-288 | the arrivals still to come, those more than half a day ahead taken as of the day before |
| CrowdShares.ComputeCrowdShares | src/Backend/PredictionEngine/snapshot_builder.py:250-302 | a share for every stop of the route and no other, 1 where nothing competes |
| CrowdShares.ShareFormula | src/Backend/PredictionEngine/snapshot_builder.py:290-300 | a live route's share is its part of the live weight at the stop, in every branch |
| CrowdShares.SharesAddToOne | src/Backend/PredictionEngine/snapshot_builder.py:267-302 | the shares that all live routes compute in their own calls, from the rows in any order, add to exactly 1 |
| CrowdShares.AllSharesTotal | src/Backend/PredictionEngine/snapshot_builder.py:275-302 | over any list of routes that call at the stop, with or without a row, the shares total the number of routes without a live row plus one if some row is live, which is 1 if and only if every route has a live row or there is only one route |
| CrowdShares.EarlierGetsMore | src/Backend/PredictionEngine/snapshot_builder.py:64-72 | shares are positive and at most 1, and one is at least another if and only if its arrival, floored at 30 seconds, is no later |
| CrowdShares.InverselyProportional | src/Backend/PredictionEngine/snapshot_builder.py:64-72 | the shares of two live routes are inversely proportional to their arrival times floored at 30 seconds |
| CrowdShares.LiveExactlyWhen | src/Backend/PredictionEngine/snapshot_builder.py:283-288 | a row counts if and only if its arrival is at most half a day ahead, or more than a day ahead by its clock, and then is taken as it stands or a day earlier |
| CrowdShares.SharesByArrival | src/Backend/PredictionEngine/snapshot_builder.py:64-72 | of two routes that still arrive, the sooner never gets less, arrivals within 30 seconds count as 30, and shares are inversely proportional to the seconds until arrival |
| CrowdShares.GoneTakesAll | src/Backend/PredictionEngine/snapshot_builder.py:290-294 | a route whose rows at the stop have all gone by, or that has none, is shown the whole crowd |
| CrowdShares.LastRowCounts | src/Backend/PredictionEngine/snapshot_builder.py:267-270 | if the query repeats a route at a stop, its last row is the one that counts |
| CrowdShares.RoundedCountsAddUp | src/Backend/PredictionEngine/snapshot_builder.py:156-160 | the rounded counts add up to the raw count to within half the number of live routes, and none is negative or exceeds it |
| SnapshotBuilder.Builder.Build | src/Backend/PredictionEngine/snapshot_builder.py:108-150 | each stop gets the rounded share of its count, unknown staying unknown; no snapshot for a route without stops |
| SnapshotBuilder.ShareInRange | src/Backend/PredictionEngine/snapshot_builder.py:57-58 | every share is positive and at most 1, whatever rows the query returned |
| SnapshotBuilder.BuiltIsStorable | src/Backend/PredictionEngine/snapshot_builder.py:134-150 | a built snapshot meets what the laws of the prediction assume of one |
| SnapshotBuilder.BuiltFromRows | src/Backend/PredictionEngine/snapshot_builder.py:134-160 | the snapshot has one vehicle per trip row, with its id, route and next stop, the default capacity and nobody on board, and each stop with nothing known if it was not counted, or else the share of its count to the nearest integer |
| SnapshotBuilder.TripIsPredictedWhen | src/Backend/PredictionEngine/snapshot_builder.py:207-215 | the prediction has an entry for a trip if and only if the default capacity is positive and the next stop is on the route before the terminus |
| SnapshotBuilder.TripStartsEmpty | src/Backend/PredictionEngine/snapshot_builder.py:207-215 | the entry is for the route and the default capacity and starts at the next stop with no load |
| SnapshotBuilder.CrowdAccountedAcrossRoutes | src/Backend/PredictionEngine/snapshot_builder.py:108-160 | the separate predictions of all routes live at a stop together board or strand the crowd counted there, to within half a passenger per route |
| CountLog.CountWriter.ResolveStopId | src/Backend/Database/writer.py:43-49 | a miss reloads the whole cache, a failed reload leaves it, a hit never looks |
| CountLog.CountWriter.WriteCrowdCount | src/Backend/Database/writer.py:53-96 | both tables and the notification change together or, for an unmapped device or a step that raises, not at all |
| CountLog.ReadingIsLoggedWhen | src/Backend/Database/writer.py:53-96 | a reading enters the log if and only if its device has a stop, its time is a date and no step raises; what the log row, the current row and the notification then say |
| CountLog.CurrentFollowsLog | src/Backend/Database/writer.py:61-96 | after any run, each device's current row exists just when it has a log entry, holds its last count, and the one before as previous count |
| CountLog.CrowdingHotspots | src/Backend/API/queries.py:178-195 | delta and trend of each row, 0 and stable when there is no previous count |
| CountLog.DeltaIsLastDifference | src/Backend/API/queries.py:179-187 | after any run the delta shown for a device is the difference of its last two log entries, 0 if it has one, with its sign as the trend and the stop of the first entry |
| CountLog.LogNamesStops | src/Backend/Database/writer.py:24-49 | while no device moves, every logged row names the stop its device has in the stops table |
| CountLog.CurrentNamesStops | src/Backend/Database/writer.py:80-92 | while no device moves, every current row names the stop its device has in the stops table |
| CountLog.RowKeepsFirstStop | src/Backend/Database/writer.py:85-89 | in general a current row names the last reading's stop if and only if the device was first logged there too |
| CountLog.MovedDeviceKeepsStop | src/Backend/Database/writer.py:85-89 | a concrete run after which a device, moved by an edit of the stops table, still names its old stop |
| Transactions.Transaction.SetSavepoint | src/Backend/Database/writer.py:256 | pushes the rows as they are; refused in an aborted transaction |
| Transactions.Transaction.Insert | src/Backend/Database/writer.py:257-277 | an accepted row is appended; a refused one aborts the transaction |
| Transactions.Transaction.Release | src/Backend/Database/writer.py:278 | forgets the newest savepoint of the name and those above it |
| Transactions.Transaction.RollbackTo | src/Backend/Database/writer.py:286 | restores the rows of the newest savepoint of the name, keeps the savepoint, and ends the abort |
| Transactions.Transaction.Commit | src/Backend/Database/connection.py:66-73 | puts the rows and notifications in place, unless the transaction is aborted or its connection lost |
| BatchInsert.InsertRow | src/Backend/Database/writer.py:255-286 | a row goes in if it can be built and the table takes it, is otherwise rolled back alone, and fails only with the connection |
| BatchInsert.WriteTripUpdates | src/Backend/Database/writer.py:236-292 | the table becomes the old one followed by exactly the insertable rows in order, with one notification if there are any; nothing changes if the connection is lost before the commit |
| BatchInsert.StoredExactlyWhen | src/Backend/Database/writer.py:255-286 | an update is stored if and only if it has a time and a trip id, its numbers fit their 16 or 32 bits and its raw entry is JSON; the row has the values of the update |
| BatchInsert.SingleUpdate | src/Backend/Database/writer.py:255-291 | one good update needs five statements, the commit included; one fewer and nothing is stored |
| BatchInsert.InsertedAppend | src/Backend/Database/writer.py:253-286 | a batch in two parts inserts what the parts insert |
| BatchInsert.BadRowIsOnlyItself | src/Backend/Database/writer.py:243-244 | a bad row anywhere leaves the batch as if it had not been in it |
| BatchInsert.StoredOnceEach | src/Backend/Database/writer.py:253-286 | every row is stored as often as an insertable update yields it |
| Retention.PurgeOldTripUpdates | src/Backend/Database/writer.py:294-327 | a committed purge applies the DELETE; a non-positive retain or a lost connection changes nothing |
| Retention.PurgeKeepsRecent | src/Backend/Database/writer.py:305-318 | the DELETE keeps, in order, exactly the rows whose time has fewer than retain newer distinct times |
| Retention.PurgeLeavesAtMost | src/Backend/Database/writer.py:297-298 | the times left are the newest retain, or all if there are no more |
| Retention.EarlierPurgeAbsorbed | src/Backend/Database/writer.py:305-318 | a purge in between makes no difference to a later one, whatever rows came in the meantime |
| Retention.PurgeIdempotent | src/Backend/Database/writer.py:305-318 | purging twice is purging once |
| Retention.FetchCycle | src/Backend/GTFS_RT/main.py:79-87 | a cycle writes and then purges; without a feed it does nothing |
| Retention.CommittedPurgeCatchesUp | src/Backend/GTFS_RT/main.py:79-87 | after any run of cycles with failures, a committed purge leaves exactly what one purge of everything ever stored would, and so at most retain distinct times |

## Left out

- Engine.PredictionEngine.PredictRoute: products of a count and the alighting fraction are exact reals, so float error near a tie is not modelled; log output is left out.
- Queries.PredictionQueries.QueryPredictionsForRoute: the rows come in the order of the SQL statement, under any collation that is a total order on text; peak and confidence are read back exactly as stored, while the column is a 4-byte float.
- ReadBackStops.WrittenThenReadBack: assumes that the clock has moved on since the last prediction written for the route.
- SnapshotBuilder.Builder.Build: a trip update without a stop sequence, on which the engine's sort raises, is not modelled.
- PredictionTable.PredictionStore.WritePredictions: integer overflow of the columns is not modelled.
- Receiver.ModelReceiver.HandleMeta: fields of the wrong JSON type, and disk errors in any handler, are not modelled.
- Receiver.ModelReceiver.HandleChunk: handlers run as one atomic step; the hash check outside the lock is not split off.
- Distributor.ModelDistributor.RetryChunks: the event and the stored ACK are cleared and read as one step, so the race between the two is not modelled.
- PredictionLoop.PredictionThread.Run: a crash of the thread and its restart after five seconds, which begins with an initial cycle again, is not modelled.
- PredictionCycle.RunCycle: building a snapshot is a result that may be missing; alerts and their evaluation are not modelled.
- Images.Broker.HandleImage: the file name, taken from the header, and disk errors are not modelled.
- CrowdShares.SharesAddToOne: the separate calls of the routes are compared for one schedule and one second of the clock, and shares are exact reals.
- CountLog.CountWriter.WriteCrowdCount: refusals by the database (a count beyond 32 bits, a device deleted from the stops table) appear as a step that raises; writers run one after the other.
- BatchInsert.WriteTripUpdates: text that the client library itself cannot send, and a commit whose outcome is unknown because the connection is lost during it, are not modelled.
- Retention.PurgeOldTripUpdates: the order of the rows in the table is kept, although SQL tables have none.
- The SQL of the arrival, vehicle and stop queries of the snapshot builder, whose results are parameters, and the dashboard queries that only reshape rows.
- The threshold evaluator, runtime settings, frame buffer, rate guard and vehicle simulator: bounds, a maximum and clamping.
- The WebSocket broadcaster and its coalescing timer: the prediction loop holds the stronger debounce property.
- The supervisor's worker restarts: the backoff is reset on every start, so it takes two values only.
- MQTT and TLS connections, threads and locks, camera capture, detection, model training, the frontend, the external API, seeds and deployment.
