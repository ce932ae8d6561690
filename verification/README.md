# The batch protocol of the ReductStore C++ client, in Dafny

The client packs many records into one HTTP message. It numbers their entries, describes each record in a header,
streams their payloads one after the other, and on the way back cuts the body into records again and hands these to
user callbacks on a worker thread. This project models that path and proves what it keeps.

| file | what it models |
|---|---|
| `Text.dfy`, `Numbers.dfy`, `Ordering.dfy`, `Wrappers.dfy` | the standard library operations the codecs are written with: searching and trimming, number parsing with its widths, string order, what `std::sort` and a `std::map` promise |
| `Batches.dfy` | records and the class `Batch` with `Slice` |
| `SendOrder.dfy` | `SortRecords` in both modes |
| `EntryNames.dfy`, `Labels.dfy`, `ExactLabels.dfy`, `HeadersV2.dfy` | entry list, labels, when whole label maps come back, and one record header of protocol v2 |
| `RequestV2.dfy`, `ResponseV2.dfy` | `BuildBatchV2Request` and `ParseAndBuildBatchedRecordsV2` |
| `RoundTripV2.dfy`, `MetadataV2.dfy`, `SizesV2.dfy`, `InheritanceV2.dfy` | decoding what was encoded: metadata, sizes, content types, labels |
| `ArrivalV2.dfy`, `WireV2.dfy` | the same said in the fields of a sent record alone, and the headers of a request as text |
| `NamedLabels.dfy`, `MalformedV2.dfy` | responses with a list of label names, and with headers that no encoder writes |
| `ErrorsV2.dfy` | the error headers of a v2 response |
| `BatchV1.dfy`, `ExchangeV1.dfy`, `RoundTripV1.dfy`, `ArrivalV1.dfy` | protocol v1: the item parser, both directions, the round trip, and what it means for each record |
| `Upload.dfy` | the content provider of `HttpClient::Post` in the loop of httplib |
| `Stream.dfy`, `StreamRuns.dfy` | the `Read` closures over the shared deque, alone and in every interleaving with the receiving thread |
| `EndToEnd.dfy` | from a batch to the payloads that another program reads |
| `Delivery.dfy`, `QueryLoop.dfy` | queued and inline callbacks, and the loops of `QueryV1` and `QueryV2` |
| `Worker.dfy`, `WorkerRuns.dfy`, `WorkerReads.dfy`, `WorkerProgress.dfy`, `WorkerEnds.dfy` | callers, task queue, worker thread and destructor as a state machine |
| `Attachments.dfy`, `AttachmentKeys.dfy`, `AttachmentLog.dfy`, `AttachmentRuns.dfy` | attachments as a log with tombstones, whose labels arrive as text and whose payloads arrive as a stream, against a plain map |

Modelling choices:

- A `std::string` is a Dafny string of bytes; the length of a string stands for `npos`. `uint64_t` values are `nat`
  with explicit bounds or an explicit `% U64`. `IBucket::Time` is a count of nanoseconds.
- `std::sort` is modelled by its promise, any sorted rearrangement; an `unordered_map` is iterated in any order, which
  is a parameter. The theorems hold for every choice.
- An exception that nobody catches is the result `None`, `Throws` or `Uncaught`, not a precondition.
- A method follows the source's loop and is proved equal to a function or to a predicate such as `IsRequest` or
  `IsDecoded`; the lemmas are about these. `ArrivalV2`, `WireV2`, `ArrivalV1`, `NamedLabels` and
  `MalformedV2` then say what is sent and what arrives without the functions that encoder and decoder share: in the
  fields of the records, and with literal header names and numbers.
- Callbacks are functions of how often, or at which offset, they are called; as no loop asks twice at one point, this
  covers callbacks with state.
- Threads are steps over one state. The queue is only assumed to keep the order of each producer. What the threads are
  going to do, and what a callback does with a record, are finite trees, over all of which the theorems quantify.
- In the state machine of the worker a read is a size, and a deque is the number of bytes that wait in it and whether
  the end of the stream does; nested calls have deques of their own. A read that polls is a step that is not enabled.
  `WorkerReads.ReadEndIsRead` ties this to the reads of the real deque.

The conditions below depend on what a caller does. Each is exact where it says so, or a concrete input shows that it is
needed. An exchange is a batch of at least one record, of entry names that survive the entry list, whose headers arrive;
timestamps, lengths and counts are in the range of their types.

- Two records of one entry in one microsecond share a header name, and one of the two headers is lost while its payload
  stays in the body. In every exchange all records come back if and only if there are no two such records
  (`MetadataV2.AllRecordsComeBack`). The conditions that follow for v2 are for batches without two such records.
- A time before the epoch is sent as a large unsigned number. The records come back in send order if and only if no
  entry has records both before and after the epoch (`MetadataV2.MetadataRoundTrip`). Lengths add up and content types
  come back in any order; payloads and the folds of labels are for the send order.
- `EncodeEntryName` lets the percent sign through. A name survives if and only if it has none; in a list it must not be
  empty either (`EntryNames.NameRoundTrip`, `EntryNames.EntryListRoundTrip`).
- A label value is good when it is comma-free, trimmed and does not begin with a quote, or has a comma and no quote; a key is
  good when it is trimmed, has no equal sign and, unless it comes first, no white space in front. A label map comes back
  from its text, on top of no labels, if and only if its keys and values are good and no value is empty
  (`ExactLabels.MapComesBack`). On top of other labels bad values can come back too (`ExactLabels.BadLabelsOnTop`).
- The v2 encoder writes full label sets and the decoder reads them as deltas. For batches in send order whose content
  types have no commas and whose labels are well-formed, all labels come back if and only if no value is empty and no
  record lacks a label of the record before it in its entry (`InheritanceV2.LabelsRoundTrip`).
- `Slice` stops at the size of the batch. This is invisible if and only if the order covers no more than that, as every
  order without repeats does (`Batches.EarlyExitIsInvisible`, `Batches.OrderedSize`).
- A `Read` of an empty record with bytes in front of it polls forever, and so does any read after the end of the stream
  was taken (`StreamRuns.FinishesExactlyWhen`, `StreamRuns.EmptyRecordStutters`).
- On the worker such a read blocks every caller. All calls of all callers return if and only if every read of their
  programs, nested ones included, comes to an end, which is a recursive test of the programs (`WorkerEnds.AllCallsReturn`,
  `WorkerEnds.SomeRunBlocks`); to read no empty record and no more bytes than arrive is enough
  (`WorkerReads.WellSizedIsReadable`).
- v1 orders headers as strings. Records with distinct microseconds whose values can be read come back in send order if
  and only if their timestamps, as they are printed, ascend as strings, as those of one width after the epoch do
  (`RoundTripV1.RoundTrip`, `RoundTripV1.EqualWidthsAscend`); 10 comes before 9 (`RoundTripV1.TenBeforeNine`).
- `FormatLabels` puts quotes around values with commas, but the v1 decoder does not undo this, and takes other items for
  quoted ones: which values can be read is exact in `BatchV1.LabelsComeBackV1`.
- `ProcessBatchV2` keeps one error for each timestamp. It tells every failed record its own error, whatever fails, if and
  only if no two entries of the batch have a record in one microsecond (`ErrorsV2.FlatSufficesExactlyWhen`).
- An attachment key becomes a label, and a label value that is empty or not good does not arrive. Over every run of
  writes and removals `ReadAttachments` gives the map that the run denotes, at every point, if and only if all keys that
  are written are good (`AttachmentRuns.RunRefinesMap`). With an empty key the record is passed over without being read,
  and the next key gets its bytes (`AttachmentRuns.EmptyKeyShiftsPayloads`). Writes come one after the other in time; an
  earlier one is hidden by a later one (`AttachmentRuns.EarlierWriteIsHidden`).

## Model

| member | source | states |
|---|---|---|
| Numbers.StoUllDecimal | src/reduct/internal/batch_v2.cc:114-117 | a printed number is parsed back if and only if it fits 64 bits |
| Numbers.StoIDecimal | src/reduct/internal/batch_v2.cc:546-546 | a printed status is parsed back if and only if it fits an int |
| Text.GetLinesOfJoin | src/reduct/internal/batch_v2.cc:85-98 | splitting with `getline` undoes joining with commas, except for a last empty item |
| Text.TrimAt | src/reduct/internal/batch_v2.cc:50-58 | a piece of a header survives trimming exactly when it has no blanks around it |
| Batches.Batch.constructor | src/reduct/bucket.h:172-289 | a new batch is empty and valid |
| Batches.Batch.AddRecord | src/reduct/bucket.h:208-219 | appends a record with the next data index and its payload, a null pointer standing for an empty one, and keeps: sizes add up, data indices number the payloads without gaps or repeats |
| Batches.Batch.AddEmptyRecord | src/reduct/bucket.h:225-229 | appends a record without data; payloads and size stay |
| Batches.Batch.AddOnlyLabels | src/reduct/bucket.h:231-235 | appends a record with labels only; payloads and size stay |
| Batches.Batch.SliceInOrder | src/reduct/bucket.h:241-280 | the walk over the payloads gives the clipped interval of their concatenation in the given order, cut off at the batch size |
| Batches.Batch.Slice | src/reduct/bucket.h:239-280 | without an order it gives the clipped interval of all payloads as they were added |
| Batches.ProcessDataAdvances | src/reduct/bucket.h:248-257 | one step of the walk keeps the result plus the rest of the interval |
| Batches.BodySize | src/reduct/bucket.h:208-219 | the payloads numbered by the records so far have together the size of the records so far |
| Batches.OrderedSize | src/reduct/bucket.h:241-280 | an order without repeats covers no more than the batch size, and all of it when it names every record |
| Batches.SliceIsInterval | src/reduct/bucket.h:241-280 | for every duplicate-free order the early exit on the batch size is invisible |
| Batches.EarlyExitIsInvisible | src/reduct/bucket.h:242-280 | for any order the early exit is invisible at all offsets and lengths if and only if the order covers no more bytes than the batch has; otherwise the tail of the concatenation is never sent |
| Batches.SlicesTile | src/reduct/bucket.h:241-280 | consecutive slices of any sizes put together are one slice |
| SendOrder.SortRecords | src/reduct/internal/batch_v1.cc:52-76 | the result is a permutation of the record indices sorted by the comparator |
| SendOrder.KeyLessTransitive | src/reduct/internal/batch_v1.cc:59-73 | the comparator is transitive in both modes |
| SendOrder.IndexLessIsOrder | src/reduct/internal/batch_v1.cc:59-73 | the comparator is a strict weak order on record indices in both modes, as `std::sort` demands |
| SendOrder.SendOrderIsPermutation | src/reduct/internal/batch_v1.cc:52-76 | every record is sent exactly once |
| SendOrder.SendOrderGroups | src/reduct/internal/batch_v1.cc:62-72 | in entry mode records are grouped by entry, and by time within an entry |
| SendOrder.SendOrderByTime | src/reduct/internal/batch_v1.cc:69-72 | otherwise they go by time, and by entry at equal times |
| EntryNames.EncodeEntryName | src/reduct/internal/batch_v2.cc:35-48 | the loop computes the byte-wise percent encoding |
| EntryNames.DecodeEntryName | src/reduct/internal/batch_v2.cc:60-83 | the loop computes the decoding, with the same failures |
| EntryNames.ParseEncodedList | src/reduct/internal/batch_v2.cc:85-98 | the loop keeps the items that are not blank and decode, in order |
| EntryNames.EncodedIsToken | src/reduct/internal/batch_v2.cc:35-48 | encoded names use only token characters of section 5.6.2 of RFC 9110 |
| EntryNames.DecodedNotLonger | src/reduct/internal/batch_v2.cc:60-83 | decoding an encoded name never makes it longer, and a name that starts with a percent sign is not found again |
| EntryNames.TokensStay | src/reduct/internal/batch_v2.cc:38-45 | a name is sent as it is if and only if it consists of letters, digits and the fifteen other token characters |
| EntryNames.SpellingDecodes | src/reduct/internal/batch_v2.cc:60-83 | a name is decoded from every spelling, with any of its bytes escaped, in digits of either case |
| EntryNames.OddEscapes | src/reduct/internal/batch_v2.cc:64-75 | escapes that are none: one digit alone, or one behind white space, a plus or a minus sign, is taken for a byte, and anything else fails |
| EntryNames.NameRoundTrip | src/reduct/internal/batch_v2.cc:35-83 | a name survives encoding and decoding if and only if it has no percent sign |
| EntryNames.ListSplits | src/reduct/internal/batch_v2.cc:85-98 | the list splits exactly where it was joined |
| EntryNames.EntryListRoundTrip | src/reduct/internal/batch_v2.cc:85-98 | the list of names comes back, at the same indices, if and only if every name is non-empty and free of percent signs |
| Labels.FormatLabels | src/reduct/internal/batch_v1.cc:38-50 | the loop prints the map in key order, with quotes around values that have commas |
| Labels.LeastLabelFirst | src/reduct/internal/batch_v1.cc:38-50 | the text of a label map is the label with the least key, with quotes around a value that has a comma, and behind a comma the text of the others |
| Labels.NextOp | src/reduct/internal/batch_v2.cc:127-174 | the scan position grows in every round, whatever the input is |
| Labels.SkipSeparator | src/reduct/internal/batch_v2.cc:168-173 | a comma and the white space behind it are stepped over |
| Labels.ParseLabelDeltaOps | src/reduct/internal/batch_v2.cc:123-177 | the loop collects the operations of all rounds |
| Labels.ApplyLabelDelta | src/reduct/internal/batch_v2.cc:179-190 | the operations are applied one after the other to the base |
| Labels.KeyComesBack | src/reduct/internal/batch_v2.cc:128-133 | a printed key is found again if and only if it has no equal sign and no white space around it that the scan takes along |
| Labels.ValueComesBack | src/reduct/internal/batch_v2.cc:149-165 | a printed value is read back if and only if it is comma-free, trimmed and not in front of a quote, or has a comma and no quote |
| Labels.LabelsComeBack | src/reduct/internal/batch_v2.cc:123-177 | a printed list of labels is read back operation by operation if and only if every key and every value is good |
| Labels.LabelCodec | src/reduct/internal/batch_v2.cc:179-190 | applying the printed form of well-formed labels gives the base, overridden by the non-empty values and without the keys of the empty ones |
| Labels.OverriddenIsFull | src/reduct/internal/batch_v2.cc:230-233 | a full label set replaces the base if and only if it has no empty value and no key of the base is missing |
| ExactLabels.OpsLeave | src/reduct/internal/batch_v2.cc:179-190 | the labels that some operations leave have no more quotes and blanks than the operations and the labels before |
| ExactLabels.ScanWeight | src/reduct/internal/batch_v2.cc:123-177 | the operations that are read from any text have no more quotes and blanks than the text, those around values counted |
| ExactLabels.MapComesBack | src/reduct/internal/batch_v2.cc:123-190 | any label map comes back from its text, on top of no labels, if and only if all keys and values are good and no value is empty |
| ExactLabels.BadLabelsOnTop | src/reduct/internal/batch_v2.cc:123-190 | on top of other labels bad values can come back, here from the text of a third label |
| HeadersV2.HeaderKeyComesBack | src/reduct/internal/batch_v2.cc:100-121 | the name of a record header gives back the entry index and delta it was built from |
| HeadersV2.HeaderKeyInjective | src/reduct/internal/batch_v2.cc:424-424 | different pairs of index and delta have different names |
| HeadersV2.OtherHeadersAreNoRecords | src/reduct/internal/batch_v2.cc:100-121 | entry list, base timestamp, last mark and label names are not taken for records |
| HeadersV2.LengthComesBack | src/reduct/internal/batch_v2.cc:192-236 | the size of a written record comes back, whatever its content type and labels are, and nothing is thrown |
| HeadersV2.TypeComesBack | src/reduct/internal/batch_v2.cc:209-228 | the decoded content type is always clean, and the written one if and only if that was clean |
| HeadersV2.RecordHeaderComesBack | src/reduct/internal/batch_v2.cc:192-236 | with a comma-free content type and well-formed labels a header inherits or trims the type, and overrides or erases labels |
| HeadersV2.UpdateHeaderComesBack | src/reduct/internal/batch_v2.cc:356-376 | the header of a label update carries no data and no type, and its labels are overridden or erased; that of a removal describes no record |
| RequestV2.CollectEntries | src/reduct/internal/batch_v2.cc:393-407 | the pass finds the smallest timestamp and numbers entries by first appearance, and stops at an empty name if one is required |
| RequestV2.Distinct | src/reduct/internal/batch_v2.cc:403-406 | no entry is listed twice, and every record's entry is listed |
| RequestV2.DeltaOf | src/reduct/internal/batch_v2.cc:422-422 | no delta wraps, and the base plus the delta gives back the timestamp |
| RequestV2.EmplaceOne | src/reduct/internal/batch_v2.cc:425-425 | emplacing keeps, of several values for one name, the first |
| RequestV2.EmplaceRecords | src/reduct/internal/batch_v2.cc:418-426 | one header for each distinct key, with the value of the first record that has it |
| RequestV2.BuildBatchV2Request | src/reduct/internal/batch_v2.cc:385-429 | the error case exactly when names are required and a record without one is added to a batch without one; otherwise order, entry list, base timestamp and headers as specified, which `ArrivalV2.EntriesListed` and the lemmas of `WireV2` put in terms of the records |
| ArrivalV2.EntriesListed | src/reduct/internal/batch_v1.cc:34-36 | a request lists every record's own entry name, and the default name if some record has none, and nothing else |
| WireV2.PreambleOnWire | src/reduct/internal/batch_v2.cc:409-416 | the two headers that are not about a record: the encoded list and the base as a decimal |
| WireV2.RecordOnWire | src/reduct/internal/batch_v2.cc:418-424 | every record has a header whose name says the place of its entry in the list and how many whole microseconds it is after the base |
| WireV2.HeaderOnWire | src/reduct/internal/batch_v2.cc:356-376 | every other header is that of a record with this entry and time, and says what such a record is written, updated or removed with |
| WireV2.BaseIsEarliest | src/reduct/internal/batch_v2.cc:393-402 | the base is the time of a record, and no record has an earlier one as an unsigned number |
| ResponseV2.HeaderOrderIsOrder | src/reduct/internal/batch_v2.cc:275-280 | the comparator of headers is a strict weak order |
| ResponseV2.CollectHeaders | src/reduct/internal/batch_v2.cc:265-273 | the record headers, in the order of iteration |
| ResponseV2.BuildRecords | src/reduct/internal/batch_v2.cc:282-347 | the pass reads each header on top of the last one of its entry, and skips what it rejects |
| ResponseV2.ParseAndBuildBatchedRecordsV2 | src/reduct/internal/batch_v2.cc:238-354 | the decoder, for any order of the header map |
| RoundTripV2.DistinctIsSorted | src/reduct/internal/batch_v2.cc:394-407 | over sorted records first-appearance numbering is monotone |
| RoundTripV2.IndexFollowsNames | src/reduct/internal/batch_v2.cc:394-407 | entry indices are ordered as the entry names are |
| RoundTripV2.SentEntriesIncrease | src/reduct/internal/batch_v2.cc:275-280 | when the 64-bit times ascend in each entry, order by index and delta is the send order |
| RoundTripV2.SentTimesAscend | src/reduct/internal/batch_v2.cc:401-401 | in send order the 64-bit times of each entry ascend if and only if no entry has times both before and after the epoch |
| RoundTripV2.KeysCollide | src/reduct/internal/batch_v2.cc:422-425 | two records have one key if and only if they agree in entry and microsecond |
| RoundTripV2.SameEntries | src/reduct/internal/batch_v2.cc:265-273 | whatever the order of iteration, the headers found are those of the sent records |
| RoundTripV2.LastGivesPrevious | src/reduct/internal/batch_v2.cc:282-293 | `last_header` holds the header of the record before, in the same entry |
| RoundTripV2.DecodeSent | src/reduct/internal/batch_v2.cc:282-347 | the pass over the sorted headers gives one record for each sent record |
| MetadataV2.PreambleComesBack | src/reduct/internal/batch_v2.cc:242-258 | the receiver finds the entry list and the base timestamp of the request |
| MetadataV2.SortedAsSent | src/reduct/internal/batch_v2.cc:265-280 | every sort of every iteration gives the headers in send order |
| MetadataV2.MetadataRoundTrip | src/reduct/internal/batch_v2.cc:238-354 | all records come back, whatever content types and labels are, and they do so in send order, with entry, microsecond and size and at most the final one marked last, if and only if no entry has times both before and after the epoch |
| MetadataV2.CollisionLosesHeader | src/reduct/internal/batch_v2.cc:422-425 | with a repeated key fewer headers than records are found |
| MetadataV2.AllRecordsComeBack | src/reduct/internal/batch_v2.cc:422-425 | all records come back if and only if no two records of one entry fall into one microsecond |
| MetadataV2.EncodeAndDecode | src/reduct/internal/batch_v2.cc:238-429 | encoder and decoder run one after the other: an exchange exists for every batch in range whose entry names survive the list, and its metadata comes back |
| InheritanceV2.TypeRoundTrip | src/reduct/internal/batch_v2.cc:222-228 | in every exchange without two records of one entry in one microsecond, in whatever order the records come back, the content type of a record comes back if and only if it is not empty, comma-free and trimmed, and is clean otherwise |
| ArrivalV2.RecordsArrive | src/reduct/internal/batch_v1.cc:26-36 | in every exchange without two records of one entry in one microsecond every record comes back once, in whatever order: under its own entry name or the default one, at its time rounded to whole microseconds towards the epoch, with its size |
| ArrivalV2.TypesArrive | src/reduct/internal/batch_v2.cc:222-228 | in every such exchange, in whatever order: the content type is the text, up to a comma and trimmed, of the nearest record at or before it in its entry where that is not empty, and `application/octet-stream` if and only if there is none or it says so |
| ArrivalV2.FinalIsMarked | src/reduct/internal/batch_v2.cc:349-351 | in any response a record is marked last if and only if it is the final one and `x-reduct-last` is there with the value `true` |
| NamedLabels.OpsNamed | src/reduct/internal/batch_v2.cc:134-144 | any label text has with a list of names the operations it has without, on the labels that its keys stand for, and throws only if a number in it does not fit 64 bits |
| NamedLabels.NumberIsName | src/reduct/internal/batch_v2.cc:136-142 | a numeric key below the length of the list stands for the name at that index, and a larger one for itself |
| NamedLabels.NamedLabelsArrive | src/reduct/internal/batch_v2.cc:260-263 | the record of a response with a list of label names has the labels that its text sets on the names of the list |
| MalformedV2.NothingWithoutPreamble | src/reduct/internal/batch_v2.cc:242-258 | a response without an entry that decodes, or without a base that is a number, gives no records and no exception |
| MalformedV2.UnusableIsSkipped | src/reduct/internal/batch_v2.cc:284-291 | a header of an entry that is not listed, or whose length is no number, changes nothing for the others, which inherit past it |
| HeadersV2.HeaderIsRead | src/reduct/internal/batch_v2.cc:209-235 | what any written record is read as on top of any header before it: the type up to its first comma, and the labels of that header changed by the text behind it |
| InheritanceV2.InheritanceRoundTrip | src/reduct/internal/batch_v2.cc:282-293 | for all content types and labels, when the records come back in send order: content type and labels of each record are the left fold of these readings over its entry, whose types `ArrivalV2.TypesArrive` and whose labels `InheritanceV2.LabelsRoundTrip` say without it |
| InheritanceV2.LabelsFold | src/reduct/internal/batch_v2.cc:230-233 | for comma-free content types and well-formed labels the fold gives every record its own labels if and only if labels grow along each entry and no value is empty |
| InheritanceV2.LabelsRoundTrip | src/reduct/internal/batch_v2.cc:230-233 | in every exchange that comes back in send order, of records with comma-free content types and well-formed labels, all labels come back if and only if labels grow along each entry and no value is empty |
| ErrorsV2.CollectRecordErrors | src/reduct/internal/batch_v2.cc:508-554 | the loop reads all error headers with the echoed entries and timestamp, or with those of the request; what this gives is `ErrorsV2.EchoedErrorsAttributed` |
| ErrorsV2.CollectFlatErrors | src/reduct/internal/batch_v2.cc:469-489 | the loop of the flat form, which does not look at the entry |
| ErrorsV2.LoopFinds | src/reduct/internal/batch_v2.cc:529-552 | exactly the records that some header is about have an error, and it is that of one of these headers |
| ErrorsV2.ErrorComesBack | src/reduct/internal/batch_v2.cc:542-547 | status and message are taken apart where they were joined, also when the message has commas |
| ErrorsV2.ErrorsAttributed | src/reduct/internal/batch_v2.cc:508-554 | errors reported for any subset of a batch, numbered by the entries and the base they are read with, are given to exactly those records |
| ErrorsV2.EchoedErrorsAttributed | src/reduct/internal/batch_v2.cc:508-527 | the same for what `ProcessBatchV2Records` returns: failures numbered by whatever entries and base the response echoes, both, one or neither, and by those of the request where none are echoed that can be used, are given to exactly those records |
| ErrorsV2.RequestErrorsAttributed | src/reduct/internal/batch_v2.cc:508-554 | the same for the numbering of the request itself, echoed or not |
| MalformedV2.NothingReported | src/reduct/internal/batch_v2.cc:531-545 | error headers without a dash, for an entry that is not listed or without a comma report nothing |
| MalformedV2.BrokenErrorThrows | src/reduct/internal/batch_v2.cc:537-546 | an error header with an index that is no number, or for a listed entry with a delta or a status that is none, makes the whole call throw, whatever else is reported and in whatever order the map is iterated |
| MalformedV2.FlatMalformed | src/reduct/internal/batch_v2.cc:471-483 | the flat form reports nothing for headers without a dash or without a comma, and throws for one with a delta or a status that is no number, whatever its index is |
| ErrorsV2.FlatAgrees | src/reduct/internal/batch_v2.cc:469-489 | when a batch targets one entry the flat form reports what the other form reports for that entry |
| ErrorsV2.FlatErrorsAttributed | src/reduct/internal/batch_v2.cc:469-489 | for a response to any subset of a batch over any entries the flat form has an error exactly at the times of the failed records, and each failed record's own error if and only if no two records failed in one microsecond with different errors |
| ErrorsV2.FlatMergesEntries | src/reduct/internal/batch_v2.cc:484-485 | for any two records of different entries in one microsecond there is a response with an error header for each of them that makes the flat form lose one of the two errors |
| ErrorsV2.FlatSufficesExactlyWhen | src/reduct/internal/batch_v2.cc:469-489 | the flat form tells every failed record its own error, for every response to a batch, if and only if no two entries of the batch have a record in one microsecond |
| BatchV1.SplitCsv | src/reduct/internal/batch_v1.cc:80-101 | the loop of the item parser, with its treatment of quotes as it is |
| BatchV1.ParseCsv | src/reduct/internal/batch_v1.cc:80-122 | size, content type and labels of a header value, or an exception |
| BatchV1.PlainItemsStay | src/reduct/internal/batch_v1.cc:85-101 | items are left as they are if and only if none looks quoted |
| BatchV1.QuotedPieces | src/reduct/internal/batch_v1.cc:85-98 | what becomes of pieces between a piece that opens a quote and one that closes it: one item, with the first piece twice and without the closing one, and cut by two characters |
| BatchV1.QuotedPiece | src/reduct/internal/batch_v1.cc:86-94 | a piece in quotes loses these and its last character |
| BatchV1.DecodedLabelsAreSeparable | src/reduct/internal/batch_v1.cc:107-115 | no decoded key or value ever has a comma, and no key an equal sign |
| BatchV1.ValueComesBackV1 | src/reduct/internal/batch_v1.cc:216-217 | size, content type and labels of a written record come back |
| BatchV1.NothingSwallowed | src/reduct/internal/batch_v1.cc:85-101 | if all labels of a value are found, every piece between the commas has made an item of its own |
| BatchV1.LabelsComeBackV1 | src/reduct/internal/batch_v1.cc:80-122 | size, content type and labels come back if and only if there are no commas in them, no equal sign in a key, no quote in front of a key, and the content type is not taken for a quoted item |
| ExchangeV1.BuildBatchV1Request | src/reduct/internal/batch_v1.cc:193-229 | an error exactly when two records are for different entries, one without a name being for the default one; otherwise the time order and one header for each distinct timestamp, as `ArrivalV1.RecordOnWireV1` and `ArrivalV1.HeaderOnWireV1` spell it out |
| ArrivalV1.RecordOnWireV1 | src/reduct/internal/batch_v1.cc:210-212 | every record has a header named by its time alone: `x-reduct-time-` and its whole microseconds towards the epoch, with a minus sign before the epoch |
| ArrivalV1.HeaderOnWireV1 | src/reduct/internal/batch_v1.cc:214-228 | every header is that of a record with this time, and says what such a record is written, updated or removed with |
| ExchangeV1.UpdateValueComesBack | src/reduct/internal/batch_v1.cc:220-224 | a v1 label update reads as an empty record without a type, with the labels it had |
| ExchangeV1.SameCount | src/reduct/internal/batch_v1.cc:125-127 | the count over the unordered map is that over the ordered one |
| ExchangeV1.BuildRecordsV1 | src/reduct/internal/batch_v1.cc:129-188 | the pass over the ordered headers, and which record is marked last |
| ExchangeV1.ParseAndBuildBatchedRecordsV1 | src/reduct/internal/batch_v1.cc:78-191 | the decoder; the order of the unordered map does not matter, and which record is marked last is `ArrivalV1.FinalIsMarkedV1` |
| ArrivalV1.FinalIsMarkedV1 | src/reduct/internal/batch_v1.cc:186-186 | in any v1 response a record is marked last if and only if it is the final one and `x-reduct-last` is there with the value `true` |
| Ordering.FirstDifferenceDecides | src/reduct/internal/batch_v1.cc:129-130 | the order of strings by which v1 headers and entries are sorted: the first difference decides, and a string comes after its prefixes |
| RoundTripV1.EqualWidthOrder | src/reduct/internal/batch_v1.cc:129-130 | decimals of one width are ordered as strings as they are as numbers |
| RoundTripV1.EqualWidthsAscend | src/reduct/internal/batch_v1.cc:129-130 | times of one decimal width after the epoch, sent in increasing order, are in increasing order as header names too, which is what the order of the v1 round trip needs |
| RoundTripV1.StoUllSigned | src/reduct/internal/batch_v1.cc:30-32 | a printed time before the epoch is parsed as the number that its conversion to an unsigned one gives |
| RoundTripV1.TenBeforeNine | src/reduct/internal/batch_v1.cc:129-130 | without equal width they are not |
| RoundTripV1.HeadersInSendOrder | src/reduct/internal/batch_v1.cc:129-133 | the decoder finds the headers in send order if and only if the timestamps, as they are printed, ascend as strings |
| RoundTripV1.RoundTrip | src/reduct/internal/batch_v1.cc:129-188 | all records whose values can be read come back, before and after the epoch, and they come back in send order with size, content type, labels and microsecond if and only if their timestamps ascend as strings |
| RoundTripV1.BatchRoundTripV1 | src/reduct/internal/batch_v1.cc:193-229 | the same from a batch through the request it makes |
| ArrivalV1.RecordsArriveV1 | src/reduct/internal/batch_v1.cc:137-187 | from a batch through its request every record comes back once, in whatever order, at its time rounded to whole microseconds towards the epoch, with its size, content type and labels |
| Upload.Provide | src/reduct/internal/http_client.cc:179-189 | a chunk is never empty nor longer than asked for, and there is none exactly when the callback stops or returns nothing |
| Upload.ChunkIsBounded | src/reduct/internal/http_client.cc:180-188 | a chunk has at most 512000 bytes, and exactly as many as asked for when the callback answers with enough |
| Upload.Post | src/reduct/internal/http_client.cc:171-190 | the loop of httplib around the provider, which ends because each chunk shortens what is left |
| Upload.AbortsExactlyOnRefusal | src/reduct/internal/http_client.cc:182-186 | the request is aborted if and only if the callback refuses an offset it is asked for, which then is the last one |
| Upload.SentIsBlob | src/reduct/internal/http_client.cc:187-188 | with short or over-long chunks of a blob, what is written is always a piece of the blob in its place, and all of it if and only if the request completes |
| Upload.UploadIsExact | src/reduct/internal/http_client.cc:179-189 | the bytes written are the blob if and only if the callback refuses nothing it is asked for |
| Upload.AnswerFromBatch | src/reduct/internal/batch_v2.cc:437-442 | the callback of a batch answers with a slice of it |
| Upload.WriteAllSendsAll | src/reduct/bucket.h:159-164 | `WriteAll` sends the whole blob |
| Upload.BatchSendsAll | src/reduct/internal/batch_v2.cc:437-442 | a batch never aborts the upload, and its body is the payloads in send order, as long as the content length says |
| Stream.TakeConserves | src/reduct/internal/batch_v2.cc:309-322 | popping a chunk and pushing back what is too much loses and reorders nothing |
| Stream.ChunkDeque.Append | src/reduct/bucket.cc:756-762 | the receiving thread appends |
| Stream.ChunkDeque.Poll | src/reduct/internal/batch_v2.cc:309-322 | the locked section takes the front of the deque, cut to the room in the record |
| Stream.ChunkDeque.ReadRound | src/reduct/internal/batch_v2.cc:308-341 | one round of the loop: the deque shrinks unless the record is full |
| Stream.ChunkDeque.Read | src/reduct/internal/batch_v2.cc:302-344 | once the stream has arrived the callback gets exactly the next bytes of the record, and the rest stays, unless it refuses earlier |
| StreamRuns.StepKeeps | src/reduct/internal/batch_v2.cc:302-344 | in every interleaving, bytes handed out plus bytes in the deque are the bytes received, in order |
| StreamRuns.CallsTile | src/reduct/internal/batch_v2.cc:302-344 | each read gets the bytes that follow those of the reads before it |
| StreamRuns.ReadGetsInterval | src/reduct/internal/batch_v2.cc:302-344 | a full read of record k gets the interval of the stream that starts at the sum of the earlier sizes |
| StreamRuns.RoundProgresses | src/reduct/internal/batch_v2.cc:308-341 | once all data has arrived the read loop has a strictly decreasing measure |
| StreamRuns.FinishesExactlyWhen | src/reduct/internal/batch_v2.cc:308-341 | an open read of an ended stream finishes if and only if the end was not taken before and the record is not empty or nothing waits |
| StreamRuns.EnoughCanFinish | src/reduct/internal/batch_v2.cc:308-341 | a record that is not empty and whose bytes have arrived can be read to its end |
| StreamRuns.EmptyRecordStutters | src/reduct/internal/batch_v2.cc:316-331 | a read of an empty record with bytes in front of it returns to the same state |
| EndToEnd.StreamDelivers | src/reduct/internal/batch_v2.cc:302-344 | reading non-empty records in order and in full gives each its own part of the body, and no read waits for bytes that do not come |
| SizesV2.SizesAddUp | src/reduct/internal/batch_v2.cc:275-347 | in whatever order the records come back, their sizes add up to those of the sent ones |
| EndToEnd.LengthsAddUp | src/reduct/internal/batch_v2.cc:437-442 | in every exchange without two records of one entry in one microsecond, the lengths in the headers add up to the content length and to the length of the body sent |
| EndToEnd.PayloadsAligned | src/reduct/internal/batch_v2.cc:385-442 | for every batch that comes back in send order, sizes of uploaded chunks, cut of the received body and interleaving, each decoded record that is not empty reads its own payload, when these are read in order, and no read waits for bytes that do not come |
| EndToEnd.PayloadsAlignedV1 | src/reduct/internal/batch_v1.cc:193-241 | the same for protocol v1, when the timestamps ascend as strings |
| Delivery.RunCallbacksInline | src/reduct/bucket.cc:831-842 | the callback is invoked on the records up to the first that it refuses or that is the last, and the flag says whether there was one |
| Delivery.DeliveryIsUnique | src/reduct/bucket.cc:831-842 | this determines the records and the flag |
| Delivery.QueuedEqualsInline | src/reduct/bucket.cc:656-670 | one task for each record gives the same records and the same flag |
| Delivery.TasksAppend | src/reduct/bucket.cc:656-670 | delivering two lists one after the other is delivering their concatenation |
| QueryLoop.ReadReply | src/reduct/bucket.cc:440-440 | one request: the flag and the error |
| QueryLoop.RunQuery | src/reduct/bucket.cc:395-416 | the loop, for any replies, continuous or not |
| QueryLoop.QueryIsUnique | src/reduct/bucket.cc:439-459 | requests sent, records delivered and end are determined by the specification: nothing after a stop, an error only for the first failure that is not 204, without continuous an end at the first 204 |
| QueryLoop.FailureEnds | src/reduct/bucket.cc:446-456 | a reply 204 ends a query that is not continuous, without an error, and lets a continuous one go on; any other failure ends both with its code |
| QueryLoop.QueryDeliversPrefix | src/reduct/bucket.cc:439-459 | the callback sees the same prefix however records are cut into batches |
| Worker.AllDoneAtReturn | src/reduct/bucket.cc:698-702 | when the last future is ready all tasks of the call have finished and none is left in the queue or with the worker |
| Worker.TurnStackFits | src/reduct/bucket.cc:831-844 | callbacks and inline calls nest, above the callback of one queued task |
| Worker.StepKeeps | src/reduct/bucket.cc:629-706 | every step of callers, worker and destructor keeps the invariant |
| Worker.RunKeeps | src/reduct/bucket.cc:708-780 | every run keeps it |
| WorkerRuns.CompletionBeforeReturn | src/reduct/bucket.cc:691-705 | in every interleaving, when a call returns every task it enqueued has finished, although it kept only the last future |
| WorkerRuns.NothingDangles | src/reduct/bucket.cc:656-671 | no task ever runs for a call that has returned |
| WorkerRuns.ReturnsInlineResult | src/reduct/bucket.cc:656-705 | a call that returns has delivered what inline delivery would, and left the same flag |
| WorkerRuns.CallbacksInOrder | src/reduct/bucket.cc:55-63 | callbacks of a call run in record order without gaps |
| WorkerRuns.ShutdownIsPrompt | src/reduct/bucket.cc:55-72 | once the stop flag is set the worker takes at most one more task, and after the empty task is enqueued it does not wait on an empty queue |
| WorkerReads.ReadEndIsRead | src/reduct/internal/batch_v2.cc:302-344 | once a stream has arrived, a read of the real deque ends if and only if the read of the state machine does, and leaves as many bytes and the same end |
| WorkerReads.WellSizedIsReadable | src/reduct/internal/batch_v2.cc:316-341 | programs that read no empty record, and no more bytes than the body of the call has, nested calls included, have only reads that come to an end |
| WorkerProgress.TurnStackSame | src/reduct/bucket.cc:831-844 | a step of a callback, also a nested one, leaves in the end what would have been left of the stream without it |
| WorkerProgress.StepSame | src/reduct/bucket.cc:629-706 | no step of any thread turns a program whose reads end into one whose reads do not, or the other way round |
| WorkerProgress.WorkerGoesOn | src/reduct/bucket.cc:681-696 | a callback that waits for bytes waits for a caller that still receives them, never for one that waits for it |
| WorkerProgress.NoDeadlock | src/reduct/bucket.cc:629-706 | in every run of any callers whose reads come to an end, with any nesting, while a caller has not finished some thread has an enabled step |
| WorkerProgress.JoinCompletes | src/reduct/bucket.cc:66-72 | after the empty task is enqueued something can go on until the worker is joined |
| WorkerEnds.TurnStackWorks | src/reduct/bucket.cc:831-844 | every step of nested callbacks and of their reads uses up work |
| WorkerEnds.StepWorks | src/reduct/bucket.cc:55-72 | every step of every thread uses up work |
| WorkerEnds.RunsAreFinite | src/reduct/bucket.cc:629-706 | for all programs, no run is longer than the work at its start |
| WorkerEnds.AllCallsReturn | src/reduct/bucket.cc:629-706 | a run that cannot be continued, other than by shutting down, ends with all calls of all callers returned if and only if all reads of the programs come to an end |
| WorkerEnds.SomeRunBlocks | src/reduct/bucket.cc:691-703 | otherwise there is, from every start, a run that leaves a caller waiting with nothing enabled |
| WorkerEnds.WorkerIsJoined | src/reduct/bucket.cc:66-72 | with such programs a run that cannot be continued at all ends with the worker joined |
| Attachments.BuildAttachments | src/reduct/bucket.cc:190-207 | one record for each key, a microsecond apart, of type `application/json` and with the key as its label `key`, or none at all when a payload is not JSON |
| Attachments.OneMoreRecord | src/reduct/bucket.cc:223-250 | one more record at the end of a log: without the label `key` it does nothing, with `remove` set to `true` it erases its key whatever its payload is, otherwise it sets the key, or fails if the payload is not JSON |
| Attachments.ReadAttachments | src/reduct/bucket.cc:217-261 | the callback over the responses of the query, where a record without a key is not read, with the error of a live record whose bytes are not JSON and the read that never ends |
| Attachments.BuildRemovals | src/reduct/bucket.cc:288-296 | an update for every record found, with its labels and `remove` set to `true` |
| Attachments.EscapedIsLiteral | src/reduct/bucket.cc:266-277 | a key is taken literally by the filter, with a dollar sign in front or not |
| Attachments.FilterFindsKeys | src/reduct/bucket.cc:266-286 | the filter finds exactly the records with one of the keys |
| AttachmentKeys.GoodKeysArrive | src/reduct/bucket.cc:198-205 | when all keys up to a record are good it arrives with its key as its only label |
| AttachmentKeys.BadKeyShrinks | src/reduct/internal/batch_v2.cc:123-190 | the text of a key that is not good brings in a shorter key, if any |
| AttachmentKeys.LongestNeverArrives | src/reduct/bucket.cc:198-209 | of the keys of one write a longest one that is not good arrives with no record |
| AttachmentKeys.KeySurvives | src/reduct/bucket.cc:205-205 | a key arrives, alone and beside the mark of a removal, if and only if it is not empty and a good label value |
| AttachmentLog.UpdateMarks | src/reduct/bucket.cc:288-308 | exactly the affected records are marked, and keep their labels |
| AttachmentLog.RemovalCommutes | src/reduct/bucket.cc:223-250 | reading a record after a removal is removing after reading it |
| AttachmentLog.OperationRefines | src/reduct/bucket.cc:190-309 | an operation on good keys keeps the log good and does to it what it means for the map |
| AttachmentRuns.ResponsesRead | src/reduct/bucket.cc:217-261 | in whatever responses a good log arrives, every record is given its own payload |
| AttachmentRuns.StepRefines | src/reduct/bucket.cc:190-309 | in whatever responses the log is read after an operation it gives what the operation means for the map, if and only if the keys that it writes are good; a write with an invalid payload leaves the log as it is |
| AttachmentRuns.RunRefinesMap | src/reduct/bucket.cc:190-309 | over every run with increasing windows of timestamps the log is read as the map that the run denotes, at every point of the run and in whatever responses, if and only if all keys that are written are good |
| AttachmentRuns.EmptyKeyShiftsPayloads | src/reduct/bucket.cc:224-232 | after a write of an empty key and another one, the other one is read with the bytes in front of its own |
| AttachmentRuns.EarlierWriteIsHidden | src/reduct/bucket.cc:197-206 | a write of a key at an earlier time than one before it does not show: the windows have to increase |

## Left out

- httplib, sockets, TLS, timeouts, URLs and the lower-casing of header names: plumbing; of httplib only its calls of the content provider are modelled, and writing to the sink succeeds.
- JSON settings, tokens, query options, query links, bucket administration and ISO 8601 parsing: field copying and single branches.
- Responses with a label-name list: what its numbers stand for is in `NamedLabels`; the round trips are for responses without one, as this client never sends one.
- The error headers of protocol v1, single-record reads (`ParseAndBuildSingleRecord`), and the fallback from a v2 batch to v1: easy next to their v2 counterparts.
- Failed transfers: `ReadRecord` then returns without waiting for the tasks it enqueued; the worker theorems are about transfers that succeed.
- Sleeps and poll intervals are steps that change nothing; the state machine of the worker has no such steps, so that a callback that waits for bytes is a thread without an enabled step.
- Batches.FromMicroseconds: a count of microseconds whose nanoseconds do not fit the clock is not modelled; timestamps that were sent are in that range.
- Batches.Batch.AddRecord: payloads are values, so that they are shared with the caller and must not change is not modelled.
- SendOrder.SortRecords: an insertion sort stands for `std::sort`; users rely only on its promise.
- Stream.ChunkDeque.Read: v1 looks at a popped item before it tests whether that is the end of the stream; the v1 theorem (`EndToEnd.PayloadsAlignedV1`) shows that no read takes the end, so the difference does not show there.
- Stream.ChunkDeque.Read: it is stated for a stream that has arrived; reading while the body arrives is in `StreamRuns`.
- MetadataV2.MetadataRoundTrip: entry names survive the entry list, which has its exact condition in `EntryNames.EntryListRoundTrip`; a lost name shifts the indices of the names behind it.
- WorkerProgress.NoDeadlock: callbacks return; a bucket that is shut down under a waiting caller is not covered, as the source leaves its tasks unrun.
- Worker.Action: a callback reads records of its own call, not of a call around it; a read that its callback cuts short is a read of the bytes it was given; HEAD requests, whose reads return at once, are not modelled.
- InheritanceV2.LabelsRoundTrip: for content types with commas and labels that are not well-formed there is only the fold of `InheritanceV2.InheritanceRoundTrip`; on top of other labels bad ones can come back, so that the condition is not theirs.
- QueryLoop.RunQuery: the replies are those of a finite prefix of a query; a continuous query that never ends is covered prefix by prefix.
- Attachments.ReadAttachments: the server is an abstract log that reads label texts as this library does, returns all matching records in time order and labels them in its responses as it has them; its filter language is not modelled beyond the escape of a leading dollar sign, and the name of the meta entry survives.
