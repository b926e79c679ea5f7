/** Result readers exported as C array streams. */
module CStreams {
  import opened Wrappers
  import opened Readers

  const EIO := 5
  const ENOENT := 2
  const EEXIST := 17
  const EACCES := 13
  const EINVAL := 22
  const ENOTSUP := 95
  const ETIMEDOUT := 110
  const ECANCELED := 125

  function Errno(status: Status): (code: int)
    ensures code > 0
  {
    match status
    case NotImplemented => ENOTSUP
    case NotFound => ENOENT
    case AlreadyExists => EEXIST
    case InvalidArgument => EINVAL
    case InvalidState => EINVAL
    case Cancelled => ECANCELED
    case Timeout => ETIMEDOUT
    case Unauthenticated => EACCES
    case Unauthorized => EACCES
    case _ => EIO
  }

  /** The errors that a C program can tell apart, by their numbers. */
  lemma ErrnoNumbers(status: Status)
    ensures Errno(status) == 95 <==> status == NotImplemented
    ensures Errno(status) == 2 <==> status == NotFound
    ensures Errno(status) == 17 <==> status == AlreadyExists
    ensures Errno(status) == 22 <==> status == InvalidArgument || status == InvalidState
    ensures Errno(status) == 125 <==> status == Cancelled
    ensures Errno(status) == 110 <==> status == Timeout
    ensures Errno(status) == 13 <==> status == Unauthenticated || status == Unauthorized
    ensures Errno(status) in [95, 2, 17, 22, 125, 110, 13, 5]
  {
  }

  /** The Go side of an exported stream. The error cell is C memory. */
  class ArrayStream {
    const rdr: ResultReader
    var adbcErr: Option<ReadError>
    var status: Option<Status>
    ghost var cellsAllocated: nat
    ghost var cellsFreed: nat

    constructor (rdr: ResultReader)
      ensures this.rdr == rdr && adbcErr == None && status == None && cellsAllocated == 0 && cellsFreed == 0
    {
      this.rdr := rdr;
      adbcErr, status, cellsAllocated, cellsFreed := None, None, 0, 0;
    }

    /** The error cell exists exactly while there is an error to show. */
    ghost predicate CellsCounted()
      reads this
    {
      cellsAllocated <= 1 && cellsAllocated - cellsFreed == (if adbcErr.Some? then 1 else 0)
    }

    method MaybeError() returns (code: int)
      requires CellsCounted() && (adbcErr == None ==> cellsAllocated == 0)
      modifies this
      ensures CellsCounted() && (adbcErr == None ==> cellsAllocated == 0) && cellsFreed == old(cellsFreed)
      ensures rdr.err == None ==> code == 0 && adbcErr == old(adbcErr) && status == old(status)
      ensures rdr.err.Some? ==> code == Errno(rdr.err.value.status) && adbcErr == rdr.err
                                && status == Some(rdr.err.value.status)
    {
      if rdr.err.Some? {
        if adbcErr == None {
          cellsAllocated := cellsAllocated + 1;
        }
        adbcErr := rdr.err;
        status := Some(rdr.err.value.status);
        return Errno(rdr.err.value.status);
      }
      return 0;
    }
  }

  /** The C struct; `privateData` is null once released. */
  class ArrowArrayStream {
    var privateData: ArrayStream?

    /** An exported stream that is not released. */
    ghost predicate Live()
      reads this, privateData, if privateData == null then {} else {privateData.rdr, privateData.rdr.stream}
    {
      && privateData != null
      && privateData.rdr.Valid() && privateData.rdr.refCount > 0
      && privateData.CellsCounted() && (privateData.adbcErr == None ==> privateData.cellsAllocated == 0)
    }

    constructor ()
      ensures privateData == null
    {
      privateData := null;
    }

    /** A stream that the struct still held is forgotten and its reader keeps the
        reference that nobody is left to give back. */
    method ExportRecordReader(rdr: ResultReader)
      requires rdr.Valid() && rdr.refCount > 0
      modifies this, rdr`refCount
      ensures Live() && fresh(privateData) && privateData.rdr == rdr && rdr.refCount == old(rdr.refCount) + 1
      ensures privateData.adbcErr == None
      ensures old(privateData) != null ==> unchanged(old(privateData))
      ensures old(privateData) != null && old(privateData).rdr != rdr ==> unchanged(old(privateData).rdr)
    {
      privateData := new ArrayStream(rdr);
      rdr.Retain();
    }

    /** ExecuteQuery after the reader is made: export it, then drop the caller's own
        reference. The stream is left with exactly one. */
    method ExportResult(rdr: ResultReader)
      requires rdr.Valid() && rdr.refCount == 1
      modifies this, rdr, rdr.stream`cancelled
      ensures Live() && fresh(privateData) && privateData.rdr == rdr && rdr.refCount == 1
      ensures rdr.yielded == old(rdr.yielded) && rdr.stream.cancelled == old(rdr.stream.cancelled)
      ensures rdr.retained == old(rdr.retained) && rdr.released == old(rdr.released)
    {
      ExportRecordReader(rdr);
      rdr.Release();
    }

    /** Hands out the reader's records in order, then success without a record or the
        error number of the stream's failure, as often as it is asked. A released stream
        answers EINVAL. */
    method GetNext() returns (code: int, batch: Option<Record>)
      requires privateData != null ==> Live()
      modifies privateData, if privateData == null then {} else {privateData.rdr, privateData.rdr.stream}
      ensures privateData == null ==> code == EINVAL && batch == None
      ensures privateData != null ==>
                var r := privateData.rdr;
                && Live() && r.refCount == old(r.refCount) && r.yielded <= r.total
                && (batch.Some? <==> |old(r.yielded)| < |r.total|)
                && (batch.Some? ==> code == 0 && batch.value.item == r.total[|old(r.yielded)|]
                                    && r.yielded == old(r.yielded) + [batch.value.item])
                && (batch == None ==> r.yielded == old(r.yielded)
                                      && code == (if r.verdict == None then 0 else Errno(r.verdict.value.status))
                                      && (r.verdict.Some? ==> privateData.adbcErr == r.verdict))
    {
      if privateData == null {
        return EINVAL, None;
      }
      var more := privateData.rdr.Next();
      if more {
        return 0, privateData.rdr.cur;
      }
      code := privateData.MaybeError();
      batch := None;
    }

    /** The first release drops the stream's reference and frees its error cell; a later
        one does nothing. */
    method Release()
      requires privateData != null ==> Live()
      modifies this, privateData,
               if privateData == null then {} else {privateData.rdr, privateData.rdr.stream}
      ensures privateData == null
      ensures old(privateData) != null ==>
                var s := old(privateData);
                && s.rdr.refCount == old(privateData.rdr.refCount) - 1
                && s.cellsFreed == s.cellsAllocated <= 1
                && (s.rdr.refCount == 0 ==> s.rdr.TornDown() && s.rdr.released == s.rdr.retained)
    {
      if privateData == null {
        return;
      }
      privateData.rdr.Release();
      if privateData.adbcErr.Some? {
        privateData.cellsFreed := privateData.cellsFreed + 1;
        privateData.adbcErr := None;
      }
      privateData := null;
    }
  }

  /** Reading an exported stream to its end, as a C consumer does, gives every item the
      response stream delivers before its first failure, then that failure. */
  method Consume(stream: ArrowArrayStream, rdr: ResultReader) returns (items: seq<Item>, code: int)
    requires rdr.Valid() && rdr.refCount == 1 && rdr.yielded == []
    modifies stream, rdr, rdr.stream
    ensures items == rdr.total && code == (if rdr.verdict == None then 0 else Errno(rdr.verdict.value.status))
    ensures stream.privateData == null && rdr.TornDown() && rdr.released == rdr.retained
  {
    ghost var last := if rdr.verdict == None then 0 else Errno(rdr.verdict.value.status);
    stream.ExportResult(rdr);
    items := [];
    var batch;
    code, batch := stream.GetNext();
    while batch.Some?
      invariant stream.Live() && fresh(stream.privateData) && stream.privateData.rdr == rdr && rdr.refCount == 1
      invariant rdr.yielded <= rdr.total
      invariant rdr.yielded == items + (if batch.Some? then [batch.value.item] else [])
      invariant batch == None ==> |rdr.yielded| == |rdr.total| && code == last
      decreases |rdr.total| - |items|
    {
      items := items + [batch.value.item];
      code, batch := stream.GetNext();
    }
    stream.Release();
  }

  /** Main result from the response stream to the C program: a result is read to its end
      without an error exactly if no response fails and the stream ends well, and then it
      is every record of every response. A failure before the first record fails the query. */
  method QueryAndRead(responses: ResponseStream, stream: ArrowArrayStream)
    returns (r: Result<seq<Item>, ReadError>, code: int)
    requires !responses.cancelled
    modifies stream, responses
    ensures r.Ok? && code == 0 <==>
              responses.ending == Eof && forall k :: 0 <= k < |old(responses.rest)| ==> !Fails(old(responses.rest)[k])
    ensures r.Ok? && code == 0 ==> r.value == Flatten(Payloads(old(responses.rest)))
    ensures forall k :: 0 <= k < |old(responses.rest)| && Fails(old(responses.rest)[k]) && r.Ok?
                        && (forall i :: 0 <= i < k ==> !Fails(old(responses.rest)[i]))
                        ==> r.value == Flatten(Payloads(old(responses.rest)[..k]))
    ensures responses.cancelled
  {
    ghost var all := responses.rest;
    if k :| 0 <= k < |all| && Fails(all[k]) {
      FirstFailure(all, responses.ending, k);
    } else {
      WholeStream(all, responses.ending);
    }
    forall k | 0 <= k < |all| && Fails(all[k]) && (forall i :: 0 <= i < k ==> !Fails(all[i]))
      ensures Delivered(all) == Flatten(Payloads(all[..k]))
    {
      BrokenStream(all, responses.ending, k);
    }
    var made, _ := NewResultReader(responses);
    if made.Err? {
      return Err(made.error), 0;
    }
    var items;
    items, code := Consume(stream, made.value);
    r := Ok(items);
  }

  lemma {:induction false} FirstFailure(all: seq<Response>, ending: Ending, k: nat)
    requires k < |all| && Fails(all[k])
    ensures Outcome(all, ending).Some?
  {
    if j :| 0 <= j < k && Fails(all[j]) {
      FirstFailure(all, ending, j);
    } else {
      BrokenStream(all, ending, k);
    }
  }

  /** Exporting into a struct that still holds a stream: once the struct is released, the
      second reader is torn down, and the first is as alive as before, with the one
      reference that was the lost stream's. */
  method ExportTwice(stream: ArrowArrayStream, first: ResultReader, second: ResultReader)
    requires first.Valid() && first.refCount == 1 && second.Valid() && second.refCount == 1
    requires first != second && first.stream != second.stream
    modifies stream, first, first.stream, second, second.stream
    ensures stream.privateData == null && second.TornDown() && second.released == second.retained
    ensures first.Valid() && first.refCount == 1 && first.stream.cancelled == old(first.stream.cancelled)
    ensures first.retained == old(first.retained) && first.released == old(first.released)
  {
    stream.ExportResult(first);
    stream.ExportResult(second);
    stream.Release();
  }
}
