/** The error headers of a v2 response: which record of a batch was refused, and why. */
module ErrorsV2 {
  import opened Wrappers
  import opened Text
  import opened Numbers
  import opened Ordering
  import opened Batches
  import opened EntryNames
  import opened HeadersV2
  import opened RequestV2
  import opened RoundTripV2

  /** Error with its status code and message. */
  datatype RecordError = RecordError(code: int, message: string)

  // IBucket::BatchErrors and IBucket::BatchRecordErrors
  type BatchErrors = map<Time, RecordError>
  type BatchRecordErrors = map<string, BatchErrors>

  /** What one header means: a throw that nobody catches, nothing, or an error of a record. */
  datatype Item = Uncaught | Skipped | Found(entry: string, time: Time, error: RecordError)

  // ---- One header ----

  function TimeOf(startTs: nat, delta: nat): Time {
    FromMicroseconds((startTs + delta) % U64)
  }

  /** The status and message of an error header; Uncaught is std::stoi on something that is no number. */
  function ErrorOf(value: string, entry: string, time: Time): Item {
    var comma := Find(value, ',', 0);
    if comma == |value| then Skipped
    else
      var status := StoI(Substr(value, 0, comma));
      if status.None? then Uncaught
      else Found(entry, time, RecordError(status.value, Substr(value, comma + 1, |value|)))
  }

  /** The body of the loop in ProcessBatchV2Records. */
  function RecordItem(name: string, value: string, entries: seq<string>, startTs: nat): Item {
    if !StartsWith(name, HEADER_ERROR_PREFIX) then Skipped
    else
      var parts := SplitAtLastDash(name, |HEADER_ERROR_PREFIX|);
      if parts.None? then Skipped
      else
        var idx := StoUll(parts.value.0);
        if idx.None? then Uncaught
        else if idx.value >= |entries| then Skipped
        else
          var delta := StoUll(parts.value.1);
          if delta.None? then Uncaught else ErrorOf(value, entries[idx.value], TimeOf(startTs, delta.value))
  }

  /** The body of the loop in ProcessBatchV2, which does not look at the entry. */
  function FlatItem(name: string, value: string, startTs: nat): Item {
    if !StartsWith(name, HEADER_ERROR_PREFIX) then Skipped
    else
      var parts := SplitAtLastDash(name, |HEADER_ERROR_PREFIX|);
      if parts.None? then Skipped
      else
        var delta := StoUll(parts.value.1);
        if delta.None? then Uncaught else ErrorOf(value, "", TimeOf(startTs, delta.value))
  }

  // ---- The loops ----

  type Reader = string -> Item

  function RecordReader(headers: Headers, entries: seq<string>, startTs: nat): Reader {
    (name: string) => if name in headers then RecordItem(name, headers[name], entries, startTs) else Skipped
  }

  function FlatReader(headers: Headers, startTs: nat): Reader {
    (name: string) => if name in headers then FlatItem(name, headers[name], startTs) else Skipped
  }

  /** map::emplace. */
  function EmplaceError(errors: BatchErrors, time: Time, error: RecordError): BatchErrors {
    if time in errors then errors else errors[time := error]
  }

  /** errors[entry].emplace. */
  function EmplaceFor(errors: BatchRecordErrors, entry: string, time: Time, error: RecordError): BatchRecordErrors {
    errors[entry := EmplaceError(if entry in errors then errors[entry] else map[], time, error)]
  }

  /** The errors after the first n headers; None is an exception. */
  function ErrorsAfter(read: Reader, iteration: seq<string>, n: nat): Option<BatchRecordErrors>
    requires n <= |iteration|
  {
    if n == 0 then Some(map[])
    else
      var errors :- ErrorsAfter(read, iteration, n - 1);
      match read(iteration[n - 1])
      case Uncaught => None
      case Skipped => Some(errors)
      case Found(entry, time, error) => Some(EmplaceFor(errors, entry, time, error))
  }

  function FlatErrorsAfter(read: Reader, iteration: seq<string>, n: nat): Option<BatchErrors>
    requires n <= |iteration|
  {
    if n == 0 then Some(map[])
    else
      var errors :- FlatErrorsAfter(read, iteration, n - 1);
      match read(iteration[n - 1])
      case Uncaught => None
      case Skipped => Some(errors)
      case Found(_, time, error) => Some(EmplaceError(errors, time, error))
  }

  lemma {:induction false} ThrowsStays(read: Reader, iteration: seq<string>, k: nat, n: nat)
    requires k <= n <= |iteration|
    ensures ErrorsAfter(read, iteration, k).None? ==> ErrorsAfter(read, iteration, n).None?
    ensures FlatErrorsAfter(read, iteration, k).None? ==> FlatErrorsAfter(read, iteration, n).None?
  {
    if k < n {
      ThrowsStays(read, iteration, k, n - 1);
    }
  }

  /**
   The entries and the base timestamp that the error headers refer to: those of the response, if it has usable ones.
   */
  function Referred(headers: Headers, entries: seq<string>, startTs: nat): (seq<string>, nat) {
    var echoed := if HEADER_ENTRIES in headers then EncodedList(headers[HEADER_ENTRIES]) else [];
    var start := if HEADER_START_TS in headers then StoUll(headers[HEADER_START_TS]) else None;
    (if echoed == [] then entries else echoed, if start.None? then startTs else start.value)
  }

  /** What ProcessBatchV2Records makes of a response, for a given order in which its header map is iterated. */
  function RecordErrors(headers: Headers, iteration: seq<string>, requestEntries: seq<string>, requestStartTs: nat)
    : Option<BatchRecordErrors>
  {
    var (entries, startTs) := Referred(headers, requestEntries, requestStartTs);
    ErrorsAfter(RecordReader(headers, entries, startTs), iteration, |iteration|)
  }

  method RecordErrorLoop(read: Reader, iteration: seq<string>) returns (result: Option<BatchRecordErrors>)
    ensures result == ErrorsAfter(read, iteration, |iteration|)
  {
    var errors: BatchRecordErrors := map[];
    for k := 0 to |iteration|
      invariant ErrorsAfter(read, iteration, k) == Some(errors)
    {
      var item := read(iteration[k]);
      if item.Uncaught? {
        ThrowsStays(read, iteration, k + 1, |iteration|);
        return None;
      }
      if item.Found? {
        errors := EmplaceFor(errors, item.entry, item.time, item.error);
      }
    }
    return Some(errors);
  }

  method FlatErrorLoop(read: Reader, iteration: seq<string>) returns (result: Option<BatchErrors>)
    ensures result == FlatErrorsAfter(read, iteration, |iteration|)
  {
    var errors: BatchErrors := map[];
    for k := 0 to |iteration|
      invariant FlatErrorsAfter(read, iteration, k) == Some(errors)
    {
      var item := read(iteration[k]);
      if item.Uncaught? {
        ThrowsStays(read, iteration, k + 1, |iteration|);
        return None;
      }
      if item.Found? {
        errors := EmplaceError(errors, item.time, item.error);
      }
    }
    return Some(errors);
  }

  /** The end of ProcessBatchV2Records. `iteration` is the order in which the unordered header map is iterated. */
  method CollectRecordErrors(
    headers: Headers, iteration: seq<string>, requestEntries: seq<string>, requestStartTs: nat)
    returns (result: Option<BatchRecordErrors>)
    requires Enumerates(iteration, headers.Keys)
    ensures result == RecordErrors(headers, iteration, requestEntries, requestStartTs)
  {
    var entries: seq<string> := [];
    if HEADER_ENTRIES in headers {
      entries := ParseEncodedList(headers[HEADER_ENTRIES]);
    }
    if entries == [] {
      entries := requestEntries;
    }
    var startTs := requestStartTs;
    if HEADER_START_TS in headers {
      var parsed := StoUll(headers[HEADER_START_TS]);
      if parsed.Some? {
        startTs := parsed.value;
      }
    }
    result := RecordErrorLoop(RecordReader(headers, entries, startTs), iteration);
  }

  /** The end of ProcessBatchV2. */
  method CollectFlatErrors(headers: Headers, iteration: seq<string>, startTs: nat)
    returns (result: Option<BatchErrors>)
    requires Enumerates(iteration, headers.Keys)
    ensures result == FlatErrorsAfter(FlatReader(headers, startTs), iteration, |iteration|)
  {
    result := FlatErrorLoop(FlatReader(headers, startTs), iteration);
  }

  // ---- What a loop over any headers finds ----

  predicate Has(errors: BatchRecordErrors, entry: string, time: Time) {
    entry in errors && time in errors[entry]
  }

  predicate IsAbout(item: Item, entry: string, time: Time) {
    item.Found? && item.entry == entry && item.time == time
  }

  /** Exactly the records that some header is about have an error, and it is that of one of those headers. */
  ghost predicate FoundExactly(errors: BatchRecordErrors, read: Reader, iteration: seq<string>, n: nat)
    requires n <= |iteration|
  {
    && (forall entry, time :: Has(errors, entry, time)
          <==> exists i :: 0 <= i < n && IsAbout(read(iteration[i]), entry, time))
    && (forall entry, time :: Has(errors, entry, time)
          ==> exists i :: 0 <= i < n && read(iteration[i]) == Found(entry, time, errors[entry][time]))
    && (forall entry <- errors :: errors[entry] != map[])
  }

  lemma {:induction false} EmplaceForHas(errors: BatchRecordErrors, entry: string, time: Time, error: RecordError)
    ensures var after := EmplaceFor(errors, entry, time, error);
            && (forall e, t :: Has(after, e, t) <==> Has(errors, e, t) || (e == entry && t == time))
            && (forall e, t :: Has(errors, e, t) ==> after[e][t] == errors[e][t])
            && (!Has(errors, entry, time) ==> after[entry][time] == error)
            && ((forall e <- errors :: errors[e] != map[]) ==> forall e <- after :: after[e] != map[])
  {
    var after := EmplaceFor(errors, entry, time, error);
    assert time in after[entry];
  }

  /** One more header that is about a record. */
  lemma {:induction false} OneMoreFound(
    before: BatchRecordErrors, read: Reader, iteration: seq<string>, n: nat, item: Item)
    requires n < |iteration| && FoundExactly(before, read, iteration, n)
    requires read(iteration[n]) == item && item.Found?
    ensures FoundExactly(EmplaceFor(before, item.entry, item.time, item.error), read, iteration, n + 1)
  {
    var after := EmplaceFor(before, item.entry, item.time, item.error);
    EmplaceForHas(before, item.entry, item.time, item.error);
    forall entry, time
      ensures Has(after, entry, time) <==> exists i :: 0 <= i < n + 1 && IsAbout(read(iteration[i]), entry, time)
      ensures Has(after, entry, time)
              ==> exists i :: 0 <= i < n + 1 && read(iteration[i]) == Found(entry, time, after[entry][time])
    {
      if Has(before, entry, time) {
        var i :| 0 <= i < n && read(iteration[i]) == Found(entry, time, before[entry][time]);
        assert read(iteration[i]) == Found(entry, time, after[entry][time]);
      } else if entry == item.entry && time == item.time {
        assert read(iteration[n]) == Found(entry, time, after[entry][time]);
        assert IsAbout(read(iteration[n]), entry, time);
      }
    }
  }

  lemma {:induction false} NoneFound(before: BatchRecordErrors, read: Reader, iteration: seq<string>, n: nat)
    requires n < |iteration| && FoundExactly(before, read, iteration, n) && read(iteration[n]).Skipped?
    ensures FoundExactly(before, read, iteration, n + 1)
  {
    forall entry, time | Has(before, entry, time)
      ensures exists i :: 0 <= i < n + 1 && read(iteration[i]) == Found(entry, time, before[entry][time])
    {
      var i :| 0 <= i < n && read(iteration[i]) == Found(entry, time, before[entry][time]);
    }
  }

  /** How one header changes the errors. */
  predicate IsStep(before: BatchRecordErrors, item: Item, after: BatchRecordErrors) {
    if item.Found? then after == EmplaceFor(before, item.entry, item.time, item.error)
    else item.Skipped? && after == before
  }

  lemma {:induction false} LoopStep(read: Reader, iteration: seq<string>, n: nat)
    requires n < |iteration| && ErrorsAfter(read, iteration, n).Some? && !read(iteration[n]).Uncaught?
    ensures ErrorsAfter(read, iteration, n + 1).Some?
    ensures IsStep(ErrorsAfter(read, iteration, n).value, read(iteration[n]), ErrorsAfter(read, iteration, n + 1).value)
  {
  }

  lemma {:induction false} LoopFinds(read: Reader, iteration: seq<string>, n: nat)
    requires n <= |iteration|
    requires forall i :: 0 <= i < |iteration| ==> !read(iteration[i]).Uncaught?
    ensures ErrorsAfter(read, iteration, n).Some?
    ensures FoundExactly(ErrorsAfter(read, iteration, n).value, read, iteration, n)
  {
    if n > 0 {
      LoopFinds(read, iteration, n - 1);
      LoopStep(read, iteration, n - 1);
      var before, item := ErrorsAfter(read, iteration, n - 1).value, read(iteration[n - 1]);
      if item.Found? {
        OneMoreFound(before, read, iteration, n - 1, item);
      } else {
        NoneFound(before, read, iteration, n - 1);
      }
    }
  }

  // ---- Attribution ----

  // The errors of some records of a batch, by their place in the send order.
  type Failures = map<nat, RecordError>

  // The entry index and the delta under which a response reports the k-th sent record.
  type Numbering = nat -> (nat, nat)

  function ErrorKey(place: (nat, nat)): string {
    "x-reduct-error-" + IndexAndDelta(place.0, place.1)
  }

  function ErrorValue(error: RecordError): string
    requires error.code >= 0
  {
    Decimal(error.code) + "," + error.message
  }

  /** The response has one error header for each failure, and no other error headers. */
  ghost predicate Reports(headers: Headers, failed: Failures, place: Numbering) {
    && (forall k <- failed :: 0 <= failed[k].code < INT_MAX && place(k).0 < U64 && place(k).1 < U64)
    && (forall k <- failed :: ErrorKey(place(k)) in headers && headers[ErrorKey(place(k))] == ErrorValue(failed[k]))
    && (forall name <- headers :: StartsWith(name, HEADER_ERROR_PREFIX) ==>
          exists k :: k in failed && name == ErrorKey(place(k)))
  }

  /** The numbers of the failed records refer to the given list of entries and base timestamp. */
  ghost predicate Numbered(
    names: seq<string>, micros: seq<nat>, failed: Failures, place: Numbering, entries: seq<string>, startTs: nat)
    requires |names| == |micros|
  {
    forall k <- failed ::
      k < |names| && place(k).0 < |entries| && entries[place(k).0] == names[k] && startTs + place(k).1 == micros[k]
  }

  /** Exactly the failed records have an error, each one its own. */
  ghost predicate IsAttribution(errors: BatchRecordErrors, names: seq<string>, micros: seq<nat>, failed: Failures)
    requires |names| == |micros| && forall k <- failed :: k < |names|
  {
    && (forall entry, time :: Has(errors, entry, time)
          <==> exists k :: k in failed && names[k] == entry && FromMicroseconds(micros[k]) == time)
    && (forall k <- failed :: Has(errors, names[k], FromMicroseconds(micros[k]))
          ==> errors[names[k]][FromMicroseconds(micros[k])] == failed[k])
    && (forall entry <- errors :: errors[entry] != map[])
  }

  lemma {:induction false} ErrorOfParts(
    value: string, code: string, message: string, status: int, entry: string, time: Time)
    requires At(value, 0, code) && |code| < |value| && value[|code|] == ',' && ',' !in code
    requires At(value, |code| + 1, message) && |value| == |code| + 1 + |message| && StoI(code) == Some(status)
    ensures ErrorOf(value, entry, time) == Found(entry, time, RecordError(status, message))
  {
    FindAfterPiece(value, 0, code, ',', 0);
    AtSlice(value, 0, code);
    AtSlice(value, |code| + 1, message);
  }

  /** Status and message are taken apart where they were joined, also when the message has commas. */
  lemma {:induction false} ErrorComesBack(error: RecordError, entry: string, time: Time)
    requires 0 <= error.code < INT_MAX
    ensures ErrorOf(ErrorValue(error), entry, time) == Found(entry, time, error)
  {
    StoIDecimal(error.code);
    ErrorOfParts(ErrorValue(error), Decimal(error.code), error.message, error.code, entry, time);
  }

  lemma {:induction false} ErrorKeyParts(place: (nat, nat))
    requires place.0 < U64 && place.1 < U64
    ensures var name := ErrorKey(place);
            && StartsWith(name, HEADER_ERROR_PREFIX)
            && SplitAtLastDash(name, |HEADER_ERROR_PREFIX|) == Some((Decimal(place.0), Decimal(place.1)))
            && StoUll(Decimal(place.0)) == Some(place.0) && StoUll(Decimal(place.1)) == Some(place.1)
  {
    SplitPrinted(HEADER_ERROR_PREFIX, place.0, place.1);
    StoUllDecimal(place.0);
    StoUllDecimal(place.1);
  }

  lemma {:induction false} RecordItemOf(
    name: string, value: string, entries: seq<string>, startTs: nat, parts: (string, string), place: (nat, nat))
    requires StartsWith(name, HEADER_ERROR_PREFIX) && SplitAtLastDash(name, |HEADER_ERROR_PREFIX|) == Some(parts)
    requires StoUll(parts.0) == Some(place.0) && StoUll(parts.1) == Some(place.1) && place.0 < |entries|
    ensures RecordItem(name, value, entries, startTs) == ErrorOf(value, entries[place.0], TimeOf(startTs, place.1))
  {
  }

  lemma {:induction false} FlatItemOf(
    name: string, value: string, startTs: nat, parts: (string, string), delta: nat)
    requires StartsWith(name, HEADER_ERROR_PREFIX) && SplitAtLastDash(name, |HEADER_ERROR_PREFIX|) == Some(parts)
    requires StoUll(parts.1) == Some(delta)
    ensures FlatItem(name, value, startTs) == ErrorOf(value, "", TimeOf(startTs, delta))
  {
  }

  lemma {:induction false} TimeIsMicros(startTs: nat, delta: nat, micros: nat)
    requires startTs + delta == micros < U64
    ensures TimeOf(startTs, delta) == FromMicroseconds(micros)
  {
  }

  /** One error header is read as the error of the record it was written for. */
  lemma {:induction false} HeaderRead(place: (nat, nat), error: RecordError, entries: seq<string>, startTs: nat)
    requires place.0 < |entries| && place.0 < U64 && place.1 < U64 && 0 <= error.code < INT_MAX
    ensures RecordItem(ErrorKey(place), ErrorValue(error), entries, startTs)
            == Found(entries[place.0], TimeOf(startTs, place.1), error)
  {
    ErrorKeyParts(place);
    RecordItemOf(ErrorKey(place), ErrorValue(error), entries, startTs, (Decimal(place.0), Decimal(place.1)), place);
    ErrorComesBack(error, entries[place.0], TimeOf(startTs, place.1));
  }

  lemma {:induction false} HeaderFound(
    place: (nat, nat), error: RecordError, entries: seq<string>, startTs: nat, micros: nat)
    requires place.0 < |entries| && place.0 < U64 && place.1 < U64 && startTs + place.1 == micros < U64
    requires 0 <= error.code < INT_MAX
    ensures RecordItem(ErrorKey(place), ErrorValue(error), entries, startTs)
            == Found(entries[place.0], FromMicroseconds(micros), error)
  {
    HeaderRead(place, error, entries, startTs);
    TimeIsMicros(startTs, place.1, micros);
  }

  lemma {:induction false} FlatHeaderRead(place: (nat, nat), error: RecordError, startTs: nat)
    requires place.0 < U64 && place.1 < U64 && 0 <= error.code < INT_MAX
    ensures FlatItem(ErrorKey(place), ErrorValue(error), startTs) == Found("", TimeOf(startTs, place.1), error)
  {
    ErrorKeyParts(place);
    FlatItemOf(ErrorKey(place), ErrorValue(error), startTs, (Decimal(place.0), Decimal(place.1)), place.1);
    ErrorComesBack(error, "", TimeOf(startTs, place.1));
  }

  lemma {:induction false} FlatHeaderFound(place: (nat, nat), error: RecordError, startTs: nat, micros: nat)
    requires place.0 < U64 && place.1 < U64 && startTs + place.1 == micros < U64 && 0 <= error.code < INT_MAX
    ensures FlatItem(ErrorKey(place), ErrorValue(error), startTs) == Found("", FromMicroseconds(micros), error)
  {
    FlatHeaderRead(place, error, startTs);
    TimeIsMicros(startTs, place.1, micros);
  }

  /** A reader that finds the error of the k-th record under its key, and nothing elsewhere. */
  ghost predicate ReadsFailures(
    read: Reader, names: seq<string>, micros: seq<nat>, failed: Failures, place: Numbering, keys: set<string>)
    requires |names| == |micros| && forall k <- failed :: k < |names|
  {
    && (forall k <- failed :: ErrorKey(place(k)) in keys)
    && (forall k <- failed :: read(ErrorKey(place(k))) == Found(names[k], FromMicroseconds(micros[k]), failed[k]))
    && (forall name <- keys :: read(name).Skipped? || exists k :: k in failed && name == ErrorKey(place(k)))
  }

  lemma {:induction false} ReaderReads(
    headers: Headers, names: seq<string>, micros: seq<nat>, failed: Failures, place: Numbering,
    entries: seq<string>, startTs: nat)
    requires |names| == |micros| && Fits(micros)
    requires Reports(headers, failed, place) && Numbered(names, micros, failed, place, entries, startTs)
    ensures ReadsFailures(RecordReader(headers, entries, startTs), names, micros, failed, place, headers.Keys)
  {
    var read := RecordReader(headers, entries, startTs);
    forall k | k in failed
      ensures read(ErrorKey(place(k))) == Found(names[k], FromMicroseconds(micros[k]), failed[k])
    {
      HeaderFound(place(k), failed[k], entries, startTs, micros[k]);
    }
    forall name | name in headers ensures read(name).Skipped? || exists k :: k in failed && name == ErrorKey(place(k)) {
      if StartsWith(name, HEADER_ERROR_PREFIX) {
        var k :| k in failed && name == ErrorKey(place(k));
      }
    }
  }

  lemma {:induction false} FoundIsFailed(
    read: Reader, names: seq<string>, micros: seq<nat>, failed: Failures, place: Numbering,
    keys: set<string>, name: string) returns (k: nat)
    requires |names| == |micros| && forall k <- failed :: k < |names|
    requires ReadsFailures(read, names, micros, failed, place, keys) && name in keys && read(name).Found?
    ensures k in failed && read(name) == Found(names[k], FromMicroseconds(micros[k]), failed[k])
  {
    k :| k in failed && name == ErrorKey(place(k));
  }

  lemma {:induction false} FailedIsFound(
    read: Reader, names: seq<string>, micros: seq<nat>, failed: Failures, place: Numbering,
    iteration: seq<string>, keys: set<string>, k: nat) returns (i: nat)
    requires |names| == |micros| && forall k <- failed :: k < |names|
    requires ReadsFailures(read, names, micros, failed, place, keys) && Enumerates(iteration, keys) && k in failed
    ensures i < |iteration| && read(iteration[i]) == Found(names[k], FromMicroseconds(micros[k]), failed[k])
  {
    assert ErrorKey(place(k)) in iteration;
    i :| 0 <= i < |iteration| && iteration[i] == ErrorKey(place(k));
  }

  lemma {:induction false} SameRecord(names: seq<string>, micros: seq<nat>, k: nat, l: nat)
    requires |names| == |micros| && Fits(micros) && DistinctKeys(names, micros) && k < |names| && l < |names|
    requires names[k] == names[l] && FromMicroseconds(micros[k]) == FromMicroseconds(micros[l])
    ensures k == l
  {
    assert micros[k] == micros[l];
  }

  lemma {:induction false} FoundAt(
    errors: BatchRecordErrors, read: Reader, iteration: seq<string>, i: nat) returns (j: nat)
    requires FoundExactly(errors, read, iteration, |iteration|) && i < |iteration| && read(iteration[i]).Found?
    ensures var item := read(iteration[i]);
            && Has(errors, item.entry, item.time)
            && j < |iteration|
            && read(iteration[j]) == Found(item.entry, item.time, errors[item.entry][item.time])
  {
    var item := read(iteration[i]);
    assert IsAbout(item, item.entry, item.time);
    assert Has(errors, item.entry, item.time);
    var error := errors[item.entry][item.time];
    j :| 0 <= j < |iteration| && read(iteration[j]) == Found(item.entry, item.time, error);
  }

  lemma {:induction false} ErrorIsOwn(
    errors: BatchRecordErrors, read: Reader, names: seq<string>, micros: seq<nat>, failed: Failures, place: Numbering,
    iteration: seq<string>, keys: set<string>, k: nat)
    requires |names| == |micros| && Fits(micros) && (forall k <- failed :: k < |names|) && DistinctKeys(names, micros)
    requires ReadsFailures(read, names, micros, failed, place, keys) && Enumerates(iteration, keys) && k in failed
    requires FoundExactly(errors, read, iteration, |iteration|)
    ensures Has(errors, names[k], FromMicroseconds(micros[k]))
    ensures errors[names[k]][FromMicroseconds(micros[k])] == failed[k]
  {
    var i := FailedIsFound(read, names, micros, failed, place, iteration, keys, k);
    var j := FoundAt(errors, read, iteration, i);
    assert iteration[j] in iteration;
    var l := FoundIsFailed(read, names, micros, failed, place, keys, iteration[j]);
    SameRecord(names, micros, k, l);
  }

  lemma {:induction false} LoopAttributes(
    read: Reader, names: seq<string>, micros: seq<nat>, failed: Failures, place: Numbering,
    iteration: seq<string>, keys: set<string>)
    requires |names| == |micros| && Fits(micros) && (forall k <- failed :: k < |names|) && DistinctKeys(names, micros)
    requires ReadsFailures(read, names, micros, failed, place, keys) && Enumerates(iteration, keys)
    ensures var errors := ErrorsAfter(read, iteration, |iteration|);
            errors.Some? && IsAttribution(errors.value, names, micros, failed)
  {
    forall i | 0 <= i < |iteration| ensures !read(iteration[i]).Uncaught? {
      assert iteration[i] in iteration;
      assert read(iteration[i]).Skipped? || exists k :: k in failed && iteration[i] == ErrorKey(place(k));
    }
    LoopFinds(read, iteration, |iteration|);
    var errors := ErrorsAfter(read, iteration, |iteration|).value;
    forall entry, time | Has(errors, entry, time)
      ensures exists k :: k in failed && names[k] == entry && FromMicroseconds(micros[k]) == time
    {
      var i :| 0 <= i < |iteration| && read(iteration[i]) == Found(entry, time, errors[entry][time]);
      assert iteration[i] in iteration;
      var k := FoundIsFailed(read, names, micros, failed, place, keys, iteration[i]);
    }
    forall k | k in failed
      ensures Has(errors, names[k], FromMicroseconds(micros[k]))
      ensures errors[names[k]][FromMicroseconds(micros[k])] == failed[k]
    {
      ErrorIsOwn(errors, read, names, micros, failed, place, iteration, keys, k);
    }
  }

  /**
   If a response reports any subset of a batch, numbered by the entries and the base timestamp that it is
   read with, each failed record gets its own error and no other record gets one.
   */
  lemma {:induction false} ErrorsAttributed(
    headers: Headers, iteration: seq<string>, names: seq<string>, micros: seq<nat>,
    failed: Failures, place: Numbering, entries: seq<string>, startTs: nat)
    requires |names| == |micros| && Fits(micros) && DistinctKeys(names, micros)
    requires Enumerates(iteration, headers.Keys) && Reports(headers, failed, place)
    requires Numbered(names, micros, failed, place, entries, startTs)
    ensures var errors := ErrorsAfter(RecordReader(headers, entries, startTs), iteration, |iteration|);
            errors.Some? && IsAttribution(errors.value, names, micros, failed)
  {
    ReaderReads(headers, names, micros, failed, place, entries, startTs);
    LoopAttributes(RecordReader(headers, entries, startTs), names, micros, failed, place, iteration, headers.Keys);
  }

  // ---- Errors of a request of this library ----

  /** The numbering of the request itself: entry index, and distance from the earliest timestamp. */
  function RequestNumbering(names: seq<string>, micros: seq<nat>): Numbering
    requires |names| == |micros| && Fits(micros)
  {
    (k: nat) => if k < |names| then (IndexOf(names, k), DeltaOf(micros, k)) else (0, 0)
  }

  /** It gives back entry and timestamp: the base is the minimum, so no delta wraps. */
  lemma {:induction false} RequestNumbers(names: seq<string>, micros: seq<nat>, failed: Failures)
    requires |names| == |micros| && Fits(micros) && forall k <- failed :: k < |names|
    ensures Numbered(names, micros, failed, RequestNumbering(names, micros), EntryList(names), StartTs(micros))
  {
  }

  /**
   The entries that the error headers of a response refer to: those that it echoes, or those of the request if it echoes
   none that can be decoded.
   */
  predicate RefersToEntries(headers: Headers, own: seq<string>, entries: seq<string>) {
    if "x-reduct-entries" in headers && EncodedList(headers["x-reduct-entries"]) != []
    then AllBytes(entries) && GoodNames(entries) && headers["x-reduct-entries"] == Join(EncodeAll(entries))
    else entries == own
  }

  /** The base timestamp that they refer to: the echoed one, or that of the request if no number is echoed. */
  predicate RefersToBase(headers: Headers, own: nat, startTs: nat) {
    if "x-reduct-start-ts" in headers && StoUll(headers["x-reduct-start-ts"]).Some?
    then startTs < U64 && headers["x-reduct-start-ts"] == Decimal(startTs)
    else startTs == own
  }

  lemma {:induction false} ReferredExactly(
    headers: Headers, own: seq<string>, ownStartTs: nat, entries: seq<string>, startTs: nat)
    requires RefersToEntries(headers, own, entries) && RefersToBase(headers, ownStartTs, startTs)
    ensures Referred(headers, own, ownStartTs) == (entries, startTs)
  {
    if AllBytes(entries) {
      EntryListRoundTrip(entries);
    }
    if startTs < U64 {
      StoUllDecimal(startTs);
    }
  }

  /**
   Whatever entries and base a response echoes, both, one of them or neither: if it reports any subset of the batch
   numbered by the echoed ones, and by those of the request where it echoes none, each failed record gets its own error
   and no other record gets one.
   */
  lemma {:induction false} EchoedErrorsAttributed(
    headers: Headers, iteration: seq<string>, names: seq<string>, micros: seq<nat>, failed: Failures, place: Numbering,
    requestEntries: seq<string>, requestStartTs: nat, entries: seq<string>, startTs: nat)
    requires |names| == |micros| && Fits(micros) && DistinctKeys(names, micros)
    requires Enumerates(iteration, headers.Keys) && Reports(headers, failed, place)
    requires RefersToEntries(headers, requestEntries, entries) && RefersToBase(headers, requestStartTs, startTs)
    requires Numbered(names, micros, failed, place, entries, startTs)
    ensures var errors := RecordErrors(headers, iteration, requestEntries, requestStartTs);
            errors.Some? && IsAttribution(errors.value, names, micros, failed)
  {
    ReferredExactly(headers, requestEntries, requestStartTs, entries, startTs);
    ErrorsAttributed(headers, iteration, names, micros, failed, place, entries, startTs);
  }

  /** A response that echoes the entry list and the base timestamp of the request, one of them, or neither. */
  predicate EchoesOrOmits(headers: Headers, entries: seq<string>, startTs: nat)
    requires AllBytes(entries)
  {
    && ("x-reduct-entries" in headers ==> headers["x-reduct-entries"] == Join(EncodeAll(entries)))
    && ("x-reduct-start-ts" in headers ==> headers["x-reduct-start-ts"] == Decimal(startTs))
  }

  lemma {:induction false} EchoRefersToRequest(headers: Headers, entries: seq<string>, startTs: nat)
    requires AllBytes(entries) && EchoesOrOmits(headers, entries, startTs) && startTs < U64
    requires "x-reduct-entries" in headers ==> GoodNames(entries)
    ensures RefersToEntries(headers, entries, entries) && RefersToBase(headers, startTs, startTs)
  {
    StoUllDecimal(startTs);
  }

  /** What a caller of ProcessBatchV2Records is told about a response to its own request. */
  lemma {:induction false} RequestErrorsAttributed(
    headers: Headers, iteration: seq<string>, names: seq<string>, micros: seq<nat>, failed: Failures)
    requires |names| == |micros| && Fits(micros) && DistinctKeys(names, micros) && forall k <- failed :: k < |names|
    requires AllBytes(EntryList(names)) && EchoesOrOmits(headers, EntryList(names), StartTs(micros))
    requires "x-reduct-entries" in headers ==> GoodNames(EntryList(names))
    requires Enumerates(iteration, headers.Keys) && Reports(headers, failed, RequestNumbering(names, micros))
    ensures var errors := RecordErrors(headers, iteration, EntryList(names), StartTs(micros));
            errors.Some? && IsAttribution(errors.value, names, micros, failed)
  {
    RequestNumbers(names, micros, failed);
    EchoRefersToRequest(headers, EntryList(names), StartTs(micros));
    EchoedErrorsAttributed(headers, iteration, names, micros, failed, RequestNumbering(names, micros),
                           EntryList(names), StartTs(micros), EntryList(names), StartTs(micros));
  }

  // ---- The flat form ----

  /** A loop over headers that are all about one entry gives the errors of that entry. */
  lemma {:induction false} FlatLoop(read: Reader, flat: Reader, iteration: seq<string>, n: nat, entry: string)
    requires n <= |iteration|
    requires forall i :: 0 <= i < |iteration| ==> SameButEntry(read(iteration[i]), flat(iteration[i]), entry)
    ensures var errors, plain := ErrorsAfter(read, iteration, n), FlatErrorsAfter(flat, iteration, n);
            && (errors.Some? <==> plain.Some?)
            && (errors.Some? ==> plain.value == if entry in errors.value then errors.value[entry] else map[])
  {
    if n > 0 {
      FlatLoop(read, flat, iteration, n - 1, entry);
      assert SameButEntry(read(iteration[n - 1]), flat(iteration[n - 1]), entry);
    }
  }

  predicate SameButEntry(item: Item, flat: Item, entry: string) {
    match item
    case Uncaught => flat == Uncaught
    case Skipped => flat == Skipped
    case Found(e, time, error) => e == entry && flat.Found? && flat.time == time && flat.error == error
  }

  /** When the batch targets one entry, ProcessBatchV2 reports what ProcessBatchV2Records reports for that entry. */
  lemma {:induction false} FlatAgrees(
    headers: Headers, iteration: seq<string>, names: seq<string>, micros: seq<nat>,
    failed: Failures, place: Numbering, entries: seq<string>, startTs: nat, entry: string)
    requires |names| == |micros| && Fits(micros)
    requires forall k :: 0 <= k < |names| ==> names[k] == entry
    requires Enumerates(iteration, headers.Keys) && Reports(headers, failed, place)
    requires Numbered(names, micros, failed, place, entries, startTs)
    ensures var errors := ErrorsAfter(RecordReader(headers, entries, startTs), iteration, |iteration|);
            var flat := FlatErrorsAfter(FlatReader(headers, startTs), iteration, |iteration|);
            && (errors.Some? <==> flat.Some?)
            && (errors.Some? ==> flat.value == if entry in errors.value then errors.value[entry] else map[])
  {
    var read, flat := RecordReader(headers, entries, startTs), FlatReader(headers, startTs);
    forall i | 0 <= i < |iteration| ensures SameButEntry(read(iteration[i]), flat(iteration[i]), entry) {
      var name := iteration[i];
      assert name in iteration;
      if StartsWith(name, HEADER_ERROR_PREFIX) {
        var k :| k in failed && name == ErrorKey(place(k));
        HeaderFound(place(k), failed[k], entries, startTs, micros[k]);
        FlatHeaderFound(place(k), failed[k], startTs, micros[k]);
      }
    }
    FlatLoop(read, flat, iteration, |iteration|, entry);
  }

  /** Every failed record finds its own error under its time. */
  predicate IsFlatAttribution(errors: BatchErrors, micros: seq<nat>, failed: Failures)
    requires forall k <- failed :: k < |micros|
  {
    forall k <- failed :: FromMicroseconds(micros[k]) in errors && errors[FromMicroseconds(micros[k])] == failed[k]
  }

  /** Two records that failed in one microsecond failed in the same way. */
  predicate NoClash(micros: seq<nat>, failed: Failures)
    requires forall k <- failed :: k < |micros|
  {
    forall k, l :: k in failed && l in failed && micros[k] == micros[l] ==> failed[k] == failed[l]
  }

  function Nameless(n: nat): (names: seq<string>)
    ensures |names| == n && forall k :: 0 <= k < n ==> names[k] == ""
  {
    seq(n, _ => "")
  }

  /** The deltas of the failed records refer to the given base timestamp. */
  ghost predicate FlatNumbered(micros: seq<nat>, failed: Failures, place: Numbering, startTs: nat) {
    forall k <- failed :: k < |micros| && startTs + place(k).1 == micros[k]
  }

  lemma {:induction false} FlatReaderReads(
    headers: Headers, micros: seq<nat>, failed: Failures, place: Numbering, startTs: nat)
    requires Fits(micros) && Reports(headers, failed, place)
    requires FlatNumbered(micros, failed, place, startTs)
    ensures ReadsFailures(FlatReader(headers, startTs), Nameless(|micros|), micros, failed, place, headers.Keys)
  {
    var read := FlatReader(headers, startTs);
    forall k | k in failed ensures read(ErrorKey(place(k))) == Found("", FromMicroseconds(micros[k]), failed[k]) {
      FlatHeaderFound(place(k), failed[k], startTs, micros[k]);
    }
    forall name | name in headers ensures read(name).Skipped? || exists k :: k in failed && name == ErrorKey(place(k)) {
      if StartsWith(name, HEADER_ERROR_PREFIX) {
        var k :| k in failed && name == ErrorKey(place(k));
      }
    }
  }

  /** The flat form has an error exactly at the times of the failed records, and there it is that of one of them. */
  lemma {:induction false} FlatFinds(
    read: Reader, micros: seq<nat>, failed: Failures, place: Numbering, iteration: seq<string>, keys: set<string>)
    requires (forall k <- failed :: k < |micros|) && Enumerates(iteration, keys)
    requires ReadsFailures(read, Nameless(|micros|), micros, failed, place, keys)
    requires forall name :: read(name).Found? ==> read(name).entry == ""
    ensures var flat := FlatErrorsAfter(read, iteration, |iteration|);
            && flat.Some?
            && (forall k <- failed :: FromMicroseconds(micros[k]) in flat.value)
            && (forall time <- flat.value ::
                  exists k :: k in failed && FromMicroseconds(micros[k]) == time && flat.value[time] == failed[k])
  {
    var names := Nameless(|micros|);
    forall i | 0 <= i < |iteration| ensures !read(iteration[i]).Uncaught? {
      assert iteration[i] in iteration;
      assert read(iteration[i]).Skipped? || exists k :: k in failed && iteration[i] == ErrorKey(place(k));
    }
    LoopFinds(read, iteration, |iteration|);
    FlatLoop(read, read, iteration, |iteration|, "");
    var errors := ErrorsAfter(read, iteration, |iteration|).value;
    var flat := FlatErrorsAfter(read, iteration, |iteration|).value;
    forall k | k in failed ensures FromMicroseconds(micros[k]) in flat {
      var i := FailedIsFound(read, names, micros, failed, place, iteration, keys, k);
      var j := FoundAt(errors, read, iteration, i);
    }
    forall time | time in flat
      ensures exists k :: k in failed && FromMicroseconds(micros[k]) == time && flat[time] == failed[k]
    {
      assert Has(errors, "", time);
      var i :| 0 <= i < |iteration| && read(iteration[i]) == Found("", time, errors[""][time]);
      assert iteration[i] in iteration;
      var k := FoundIsFailed(read, names, micros, failed, place, keys, iteration[i]);
    }
  }

  lemma {:induction false} FlatOwnExactlyWhen(flat: BatchErrors, micros: seq<nat>, failed: Failures)
    requires Fits(micros) && forall k <- failed :: k < |micros| && FromMicroseconds(micros[k]) in flat
    requires forall time <- flat ::
               exists k :: k in failed && FromMicroseconds(micros[k]) == time && flat[time] == failed[k]
    ensures IsFlatAttribution(flat, micros, failed) <==> NoClash(micros, failed)
  {
    if NoClash(micros, failed) {
      forall k | k in failed ensures flat[FromMicroseconds(micros[k])] == failed[k] {
        var time := FromMicroseconds(micros[k]);
        var l :| l in failed && FromMicroseconds(micros[l]) == time && flat[time] == failed[l];
        assert micros[k] == micros[l];
      }
    }
  }

  /**
   For any subset of a batch, over any entries, the flat form gives each failed record its own error exactly when no two
   records failed in one microsecond with different errors.
   */
  lemma {:induction false} FlatErrorsAttributed(
    headers: Headers, iteration: seq<string>, micros: seq<nat>, failed: Failures, place: Numbering,
    startTs: nat)
    requires Fits(micros) && Enumerates(iteration, headers.Keys) && Reports(headers, failed, place)
    requires FlatNumbered(micros, failed, place, startTs)
    ensures var flat := FlatErrorsAfter(FlatReader(headers, startTs), iteration, |iteration|);
            && flat.Some?
            && (forall time :: time in flat.value <==> exists k :: k in failed && FromMicroseconds(micros[k]) == time)
            && (IsFlatAttribution(flat.value, micros, failed) <==> NoClash(micros, failed))
  {
    var read := FlatReader(headers, startTs);
    FlatReaderReads(headers, micros, failed, place, startTs);
    FlatFinds(read, micros, failed, place, iteration, headers.Keys);
    FlatOwnExactlyWhen(FlatErrorsAfter(read, iteration, |iteration|).value, micros, failed);
  }

  lemma {:induction false} ErrorKeyInjective(a: (nat, nat), b: (nat, nat))
    requires ErrorKey(a) == ErrorKey(b)
    ensures a == b
  {
    SplitPrinted(HEADER_ERROR_PREFIX, a.0, a.1);
    SplitPrinted(HEADER_ERROR_PREFIX, b.0, b.1);
    DecimalInjective(a.0, b.0);
    DecimalInjective(a.1, b.1);
  }

  lemma {:induction false} ErrorValueInjective(a: RecordError, b: RecordError)
    requires 0 <= a.code < INT_MAX && 0 <= b.code < INT_MAX && ErrorValue(a) == ErrorValue(b)
    ensures a == b
  {
    ErrorComesBack(a, "", 0);
    ErrorComesBack(b, "", 0);
  }

  lemma {:induction false} SameHeaderSameError(
    headers: Headers, failed: Failures, place: Numbering, k: nat, l: nat)
    requires Reports(headers, failed, place) && k in failed && l in failed && place(k) == place(l)
    ensures failed[k] == failed[l]
  {
    assert headers[ErrorKey(place(k))] == ErrorValue(failed[k]) == ErrorValue(failed[l]);
    ErrorValueInjective(failed[k], failed[l]);
  }

  /** The request numbers two records alike exactly when they agree in entry and microsecond. */
  lemma {:induction false} SamePlace(names: seq<string>, micros: seq<nat>, k: nat, l: nat)
    requires |names| == |micros| && Fits(micros) && k < |names| && l < |names|
    ensures var place := RequestNumbering(names, micros);
            place(k) == place(l) <==> names[k] == names[l] && micros[k] == micros[l]
  {
  }

  /** A response with two error headers. */
  lemma {:induction false} TwoReports(a: RecordError, b: RecordError, place: Numbering, k: nat, l: nat)
    returns (headers: Headers, iteration: seq<string>)
    requires 0 <= a.code < INT_MAX && 0 <= b.code < INT_MAX && k != l && place(k) != place(l)
    requires place(k).0 < U64 && place(k).1 < U64 && place(l).0 < U64 && place(l).1 < U64
    ensures Reports(headers, map[k := a, l := b], place) && Enumerates(iteration, headers.Keys)
  {
    var x, y := ErrorKey(place(k)), ErrorKey(place(l));
    if x == y {
      ErrorKeyInjective(place(k), place(l));
    }
    iteration := [x, y];
    headers := map[x := ErrorValue(a), y := ErrorValue(b)];
  }

  lemma {:induction false} FlatLosesError(
    a: RecordError, b: RecordError, micros: seq<nat>, place: Numbering, startTs: nat, k: nat, l: nat)
    returns (headers: Headers, iteration: seq<string>)
    requires 0 <= a.code < INT_MAX && 0 <= b.code < INT_MAX && a != b && k != l && place(k) != place(l)
    requires Fits(micros) && k < |micros| && l < |micros| && micros[k] == micros[l]
    requires place(k).0 < U64 && place(k).1 < U64 && place(l).0 < U64 && place(l).1 < U64
    requires FlatNumbered(micros, map[k := a, l := b], place, startTs)
    ensures Reports(headers, map[k := a, l := b], place) && Enumerates(iteration, headers.Keys)
    ensures var flat := FlatErrorsAfter(FlatReader(headers, startTs), iteration, |iteration|);
            flat.Some? && !IsFlatAttribution(flat.value, micros, map[k := a, l := b])
  {
    headers, iteration := TwoReports(a, b, place, k, l);
    FlatErrorsAttributed(headers, iteration, micros, map[k := a, l := b], place, startTs);
    assert map[k := a, l := b][k] != map[k := a, l := b][l];
  }

  lemma {:induction false} RequestNumbersFlat(names: seq<string>, micros: seq<nat>, failed: Failures)
    requires |names| == |micros| && Fits(micros) && forall k <- failed :: k < |micros|
    ensures FlatNumbered(micros, failed, RequestNumbering(names, micros), StartTs(micros))
  {
  }

  lemma {:induction false} RequestNumbersFit(names: seq<string>, micros: seq<nat>, k: nat)
    requires |names| == |micros| <= U64 && Fits(micros) && k < |names|
    ensures var (idx, delta) := RequestNumbering(names, micros)(k); idx < U64 && delta < U64
  {
    DistinctShorter(names, |names|);
  }

  /** Two records of different entries that fail in one microsecond: one of the two errors is lost. */
  lemma {:induction false} FlatMergesEntries(names: seq<string>, micros: seq<nat>, k: nat, l: nat)
    returns (headers: Headers, iteration: seq<string>, failed: Failures)
    requires |names| == |micros| <= U64 && Fits(micros) && k < |names| && l < |names|
    requires micros[k] == micros[l] && names[k] != names[l]
    ensures failed == map[k := RecordError(409, "conflict"), l := RecordError(422, "invalid")]
    ensures Reports(headers, failed, RequestNumbering(names, micros)) && Enumerates(iteration, headers.Keys)
    ensures var flat := FlatErrorsAfter(FlatReader(headers, StartTs(micros)), iteration, |iteration|);
            flat.Some? && !IsFlatAttribution(flat.value, micros, failed)
  {
    var place := RequestNumbering(names, micros);
    var first, second := RecordError(409, "conflict"), RecordError(422, "invalid");
    failed := map[k := first, l := second];
    RequestNumbersFit(names, micros, k);
    RequestNumbersFit(names, micros, l);
    SamePlace(names, micros, k, l);
    RequestNumbersFlat(names, micros, failed);
    headers, iteration := FlatLosesError(first, second, micros, place, StartTs(micros), k, l);
  }

  /** Whatever fails, every failed record is told its own error, when the response is numbered like the request. */
  ghost predicate FlatSuffices(names: seq<string>, micros: seq<nat>)
    requires |names| == |micros| && Fits(micros)
  {
    forall headers: Headers, iteration: seq<string>, failed: Failures ::
      (forall k <- failed :: k < |micros|)
      && Reports(headers, failed, RequestNumbering(names, micros)) && Enumerates(iteration, headers.Keys) ==>
        var flat := FlatErrorsAfter(FlatReader(headers, StartTs(micros)), iteration, |iteration|);
        flat.Some? && IsFlatAttribution(flat.value, micros, failed)
  }

  /** Records that are numbered alike are reported by one header. */
  lemma {:induction false} OneHeaderNoClash(
    headers: Headers, micros: seq<nat>, failed: Failures, place: Numbering)
    requires (forall k <- failed :: k < |micros|) && Reports(headers, failed, place)
    requires forall k, l :: 0 <= k < |micros| && 0 <= l < |micros| && micros[k] == micros[l] ==> place(k) == place(l)
    ensures NoClash(micros, failed)
  {
    forall k, l | k in failed && l in failed && micros[k] == micros[l] ensures failed[k] == failed[l] {
      SameHeaderSameError(headers, failed, place, k, l);
    }
  }

  lemma {:induction false} SamePlaces(names: seq<string>, micros: seq<nat>)
    requires |names| == |micros| && Fits(micros)
    requires forall k, l :: 0 <= k < l < |names| && micros[k] == micros[l] ==> names[k] == names[l]
    ensures var place := RequestNumbering(names, micros);
            forall k, l :: 0 <= k < |micros| && 0 <= l < |micros| && micros[k] == micros[l] ==> place(k) == place(l)
  {
    var place := RequestNumbering(names, micros);
    forall k, l | 0 <= k < |micros| && 0 <= l < |micros| && micros[k] == micros[l] ensures place(k) == place(l) {
      SamePlace(names, micros, k, l);
    }
  }

  lemma {:induction false} FlatSufficesFor(
    headers: Headers, iteration: seq<string>, names: seq<string>, micros: seq<nat>, failed: Failures)
    requires |names| == |micros| && Fits(micros) && forall k <- failed :: k < |micros|
    requires forall k, l :: 0 <= k < l < |names| && micros[k] == micros[l] ==> names[k] == names[l]
    requires Reports(headers, failed, RequestNumbering(names, micros)) && Enumerates(iteration, headers.Keys)
    ensures var flat := FlatErrorsAfter(FlatReader(headers, StartTs(micros)), iteration, |iteration|);
            flat.Some? && IsFlatAttribution(flat.value, micros, failed)
  {
    SamePlaces(names, micros);
    OneHeaderNoClash(headers, micros, failed, RequestNumbering(names, micros));
    RequestNumbersFlat(names, micros, failed);
    FlatErrorsAttributed(headers, iteration, micros, failed, RequestNumbering(names, micros), StartTs(micros));
  }

  /** For a batch the flat form is good enough exactly when no two entries have a record in one microsecond. */
  lemma {:induction false} FlatSufficesExactlyWhen(names: seq<string>, micros: seq<nat>)
    requires |names| == |micros| <= U64 && Fits(micros)
    ensures FlatSuffices(names, micros)
            <==> forall k, l :: 0 <= k < l < |names| && micros[k] == micros[l] ==> names[k] == names[l]
  {
    if k, l :| 0 <= k < l < |names| && micros[k] == micros[l] && names[k] != names[l] {
      var headers, iteration, failed := FlatMergesEntries(names, micros, k, l);
    } else {
      forall headers: Headers, iteration: seq<string>, failed: Failures |
        (forall k <- failed :: k < |micros|)
        && Reports(headers, failed, RequestNumbering(names, micros)) && Enumerates(iteration, headers.Keys)
        ensures var flat := FlatErrorsAfter(FlatReader(headers, StartTs(micros)), iteration, |iteration|);
                flat.Some? && IsFlatAttribution(flat.value, micros, failed)
      {
        FlatSufficesFor(headers, iteration, names, micros, failed);
      }
    }
  }
}
