/** The streaming result reader: one batch in memory, records counted by hand. */
module Readers {
  import opened Wrappers

  datatype Status = Unknown | NotImplemented | NotFound | AlreadyExists | InvalidArgument | InvalidState
                  | InvalidData | Integrity | Internal | IO | Cancelled | Timeout | Unauthenticated | Unauthorized

  datatype ReadError = ReadError(status: Status, message: string)

  /** A record's contents, whatever they are. */
  type Item = string

  /** One response of the stream. A readable payload has a schema and records, and may
      still break off after them. */
  datatype Response =
    | NoBatch
    | NoData
    | BadHeader(error: ReadError)
    | Batch(schema: string, items: seq<Item>, broken: Option<ReadError>)

  datatype Ending = Eof | Failed(error: ReadError)

  datatype Received = Message(response: Response) | End(ending: Ending)

  /** Everything before the first failure, in order. */
  function Delivered(all: seq<Response>): seq<Item> {
    if all == [] then []
    else
      match all[0]
      case BadHeader(_) => []
      case Batch(_, items, broken) => if broken.Some? then [] else items + Delivered(all[1..])
      case _ => Delivered(all[1..])
  }

  /** The first failure, if there is one. */
  function Outcome(all: seq<Response>, ending: Ending): Option<ReadError> {
    if all == [] then if ending.Failed? then Some(ending.error) else None
    else
      match all[0]
      case BadHeader(e) => Some(e)
      case Batch(_, _, broken) => if broken.Some? then broken else Outcome(all[1..], ending)
      case _ => Outcome(all[1..], ending)
  }

  /** The schema of the first payload with a readable header, whether or not it has records. */
  function FirstSchema(all: seq<Response>): Option<string> {
    if all == [] then None
    else
      match all[0]
      case BadHeader(_) => None
      case Batch(schema, _, _) => Some(schema)
      case _ => FirstSchema(all[1..])
  }

  /** A failing response adds nothing and hides all that follows; otherwise what two
      stretches of a stream deliver is joined. */
  lemma {:induction false} DeliveredAppend(a: seq<Response>, b: seq<Response>, ending: Ending)
    ensures Delivered(a + b) == if Outcome(a, Eof) == None then Delivered(a) + Delivered(b) else Delivered(a)
    ensures Outcome(a + b, ending) == if Outcome(a, Eof) == None then Outcome(b, ending) else Outcome(a, Eof)
  {
    if a == [] {
      assert a + b == b;
    } else {
      assert (a + b)[1..] == a[1..] + b;
      DeliveredAppend(a[1..], b, ending);
    }
  }

  /** A response that makes the reader fail. */
  predicate Fails(r: Response) {
    r.BadHeader? || (r.Batch? && r.broken.Some?)
  }

  /** The records of each response. */
  function Payloads(all: seq<Response>): seq<seq<Item>> {
    seq(|all|, k requires 0 <= k < |all| => if all[k].Batch? then all[k].items else [])
  }

  /** Main result on streams without a failing response: everything is delivered, in
      order, and the outcome is how the stream itself ends. */
  lemma {:induction false} WholeStream(all: seq<Response>, ending: Ending)
    requires forall k :: 0 <= k < |all| ==> !Fails(all[k])
    ensures Delivered(all) == Flatten(Payloads(all))
    ensures ending.Failed? ==> Outcome(all, ending) == Some(ending.error)
    ensures ending == Eof ==> Outcome(all, ending) == None
  {
    if all != [] {
      var last := |all| - 1;
      WholeStream(all[..last], ending);
      WholeStream(all[..last], Eof);
      DeliveredAppend(all[..last], [all[last]], ending);
      assert all == all[..last] + [all[last]] && Payloads(all)[..last] == Payloads(all[..last]);
      assert Delivered([all[last]]) == Payloads(all)[last];
    }
  }

  /** Main result on the others: what comes before the first failing response is delivered,
      and the outcome is that response's own error. */
  lemma BrokenStream(all: seq<Response>, ending: Ending, k: nat)
    requires k < |all| && Fails(all[k]) && forall i :: 0 <= i < k ==> !Fails(all[i])
    ensures Delivered(all) == Flatten(Payloads(all[..k]))
    ensures all[k].BadHeader? ==> Outcome(all, ending) == Some(all[k].error)
    ensures all[k].Batch? ==> Outcome(all, ending) == all[k].broken
  {
    WholeStream(all[..k], Eof);
    assert all == all[..k] + all[k..];
    DeliveredAppend(all[..k], all[k..], ending);
    assert Delivered(all[k..]) == [];
  }

  /** The schema of the stream is that of the first payload, unless a header before it is
      not readable. */
  lemma {:induction false} SchemaComesFrom(all: seq<Response>)
    ensures FirstSchema(all).Some? <==> exists k :: 0 <= k < |all| && all[k].Batch?
                                                    && forall i :: 0 <= i < k ==> !all[i].BadHeader?
    ensures forall k :: 0 <= k < |all| && all[k].Batch?
                        && (forall i :: 0 <= i < k ==> !all[i].BadHeader? && !all[i].Batch?)
                        ==> FirstSchema(all) == Some(all[k].schema)
  {
    if all != [] && !all[0].Batch? && !all[0].BadHeader? {
      SchemaComesFrom(all[1..]);
      forall k | 0 < k < |all| && all[k].Batch? && (forall i :: 0 <= i < k ==> !all[i].BadHeader? && !all[i].Batch?)
        ensures FirstSchema(all) == Some(all[k].schema)
      {
        assert all[1..][k - 1] == all[k];
      }
      if k :| 0 <= k < |all| && all[k].Batch? && forall i :: 0 <= i < k ==> !all[i].BadHeader? {
        assert all[1..][k - 1].Batch? && forall i :: 0 <= i < k - 1 ==> !all[1..][i].BadHeader?;
      }
    }
  }

  class ResponseStream {
    var rest: seq<Response>
    const ending: Ending
    var received: nat
    var cancelled: bool

    constructor (all: seq<Response>, ending: Ending)
      ensures rest == all && this.ending == ending && received == 0 && !cancelled
    {
      rest, this.ending, received, cancelled := all, ending, 0, false;
    }

    method Recv() returns (r: Received)
      modifies this`rest, this`received
      ensures received == old(received) + 1
      ensures old(rest) == [] ==> r == End(ending) && rest == []
      ensures old(rest) != [] ==> r == Message(old(rest)[0]) && rest == old(rest)[1..]
    {
      received := received + 1;
      if rest == [] {
        return End(ending);
      }
      r := Message(rest[0]);
      rest := rest[1..];
    }
  }

  /** A decoded record: the number of the response it came in, and its contents. */
  datatype Record = Record(batch: nat, item: Item)

  ghost function Items(records: seq<Record>): seq<Item> {
    seq(|records|, k requires 0 <= k < |records| => records[k].item)
  }

  /** What one response means to Fill. */
  datatype Step = Skip | Stop(error: Option<ReadError>) | Got(records: seq<Record>)

  ghost function AsSeq<T>(x: Option<T>): seq<T> {
    if x.Some? then [x.value] else []
  }

  class ResultReader {
    var refCount: int
    var schema: Option<string>
    const stream: ResponseStream
    var cancelSet: bool
    var buf: seq<Record>
    var bufPos: nat
    var cur: Option<Record>
    var err: Option<ReadError>
    var done: bool

    // What the whole stream delivers and how it ends; the references taken and given
    // back; the items yielded.
    ghost const total: seq<Item>
    ghost const verdict: Option<ReadError>
    ghost var retained: seq<Record>
    ghost var released: seq<Record>
    ghost var yielded: seq<Item>

    ghost function Unread(): seq<Record>
      reads this
    {
      if bufPos <= |buf| then buf[bufPos..] else []
    }

    /** Every reference taken was given back, or is the current record's, or an unread
        one's, in this order; and the buffer holds records of one response. */
    ghost predicate Conserved()
      reads this
    {
      && retained == released + (AsSeq(cur) + Unread())
      && forall i, j :: 0 <= i < |buf| && 0 <= j < |buf| ==> buf[i].batch == buf[j].batch
    }

    ghost function ToCome(): seq<Item>
      reads this, stream
    {
      if done then [] else Delivered(stream.rest)
    }

    /** What was yielded, what is unread and what is still to come make up the stream. */
    ghost predicate Delivering()
      reads this, stream
    {
      && bufPos <= |buf|
      && total == yielded + (Items(Unread()) + ToCome())
      && (if done then err == verdict else err == None && Outcome(stream.rest, stream.ending) == verdict)
      && (err.Some? ==> Unread() == [] && yielded == total)
      && cancelSet && !stream.cancelled
    }

    /** Between two batches. */
    ghost predicate Idle()
      reads this, stream
    {
      && retained == released && cur == None && buf == [] && bufPos == 0 && !done && err == None
      && total == yielded + Delivered(stream.rest) && Outcome(stream.rest, stream.ending) == verdict
      && cancelSet && !stream.cancelled
    }

    /** Given up: nothing is held and the stream is cancelled. */
    ghost predicate TornDown()
      reads this, stream
    {
      buf == [] && cur == None && !cancelSet && stream.cancelled
    }

    ghost predicate Valid()
      reads this, stream
    {
      && Conserved()
      && (refCount > 0 ==> Delivering() && schema.Some?)
      && (refCount <= 0 ==> TornDown())
    }

    /** Decodes the payload of the response just received, taking a reference to each of
        its records; gives them all back when the payload breaks off. */
    method DecodeIPC(response: Response) returns (r: Result<seq<Record>, ReadError>)
      requires response.BadHeader? || response.Batch?
      requires retained == released
      modifies this`schema, this`retained, this`released
      ensures schema == if old(schema) == None then FirstSchema([response]) else old(schema)
      ensures match response
              case BadHeader(e) => r == Err(e)
              case Batch(_, items, broken) =>
                if broken.Some? then r == Err(broken.value)
                else r.Ok? && Items(r.value) == items
                     && forall k :: 0 <= k < |r.value| ==> r.value[k].batch == stream.received
              case _ => true
      ensures retained == released + (if r.Ok? then r.value else [])
    {
      if response.BadHeader? {
        return Err(response.error);
      }
      if schema == None {
        schema := Some(response.schema);
      }
      var recs: seq<Record> := [];
      for k := 0 to |response.items|
        invariant |recs| == k
        invariant forall i :: 0 <= i < k ==> recs[i] == Record(stream.received, response.items[i])
        invariant retained == old(retained) + recs
        modifies `retained
      {
        var rec := Record(stream.received, response.items[k]);
        retained := retained + [rec];
        recs := recs + [rec];
      }
      if response.broken.Some? {
        for k := 0 to |recs|
          invariant released == old(released) + recs[..k]
          modifies `released
        {
          released := released + [recs[k]];
        }
        assert recs[..|recs|] == recs;
        return Err(response.broken.value);
      }
      return Ok(recs);
    }

    ghost function SchemaWith(rest: seq<Response>): Option<string>
      reads this`schema
    {
      if schema == None then FirstSchema(rest) else schema
    }

    /** One pass of the loop of Fill: receives a response and decodes what it holds. */
    method Receive() returns (step: Step)
      requires retained == released
      modifies this`schema, this`retained, this`released, stream`rest, stream`received
      ensures retained == released + (if step.Got? then step.records else [])
      ensures match step
              case Stop(e) => Delivered(old(stream.rest)) == [] && Outcome(old(stream.rest), stream.ending) == e
              case Skip =>
                && Delivered(old(stream.rest)) == Delivered(stream.rest)
                && Outcome(old(stream.rest), stream.ending) == Outcome(stream.rest, stream.ending)
              case Got(records) =>
                && records != [] && (forall k :: 0 <= k < |records| ==> records[k].batch == stream.received)
                && Delivered(old(stream.rest)) == Items(records) + Delivered(stream.rest)
                && Outcome(old(stream.rest), stream.ending) == Outcome(stream.rest, stream.ending)
      ensures !step.Stop? ==> |stream.rest| < |old(stream.rest)|
      ensures step == Stop(None) || step.Got? ==> schema == old(SchemaWith(stream.rest))
      ensures step.Skip? ==> SchemaWith(stream.rest) == old(SchemaWith(stream.rest))
      ensures old(schema).Some? ==> schema == old(schema)
    {
      var received := stream.Recv();
      if received.End? {
        return Stop(if received.ending.Failed? then Some(received.ending.error) else None);
      }
      var response := received.response;
      if response.NoBatch? || response.NoData? {
        return Skip;
      }
      var recs := DecodeIPC(response);
      if recs.Err? {
        return Stop(Some(recs.error));
      }
      if recs.value == [] {
        return Skip;
      }
      return Got(recs.value);
    }

    /** Pulls responses until one has records, or the stream ends or fails. Called only
        while the stream is not done, so nothing is received after that. */
    method Fill()
      requires Idle()
      modifies this, stream`rest, stream`received
      ensures Conserved() && Delivering() && cur == None
      ensures yielded == old(yielded) && refCount == old(refCount)
      ensures done || bufPos < |buf|
      ensures old(schema).Some? ==> schema == old(schema)
      ensures err == None ==> schema == old(SchemaWith(stream.rest))
    {
      while true
        invariant Idle()
        invariant yielded == old(yielded) && refCount == old(refCount)
        invariant SchemaWith(stream.rest) == old(SchemaWith(stream.rest))
        invariant old(schema).Some? ==> schema == old(schema)
        decreases |stream.rest|
      {
        var step := Receive();
        match step
        case Skip =>
        case Stop(e) =>
          Finish(e);
          return;
        case Got(records) =>
          Accept(records);
          return;
      }
    }

    /** The stream has ended, or failed. */
    method Finish(e: Option<ReadError>)
      requires retained == released && cur == None && buf == [] && bufPos == 0
      requires total == yielded && e == verdict && cancelSet && !stream.cancelled
      modifies this`err, this`done
      ensures Conserved() && Delivering() && done && err == e
    {
      err := e;
      done := true;
    }

    /** The decoded records become the unread ones. */
    method Accept(recs: seq<Record>)
      requires retained == released + recs && cur == None && !done && err == None
      requires forall i, j :: 0 <= i < |recs| && 0 <= j < |recs| ==> recs[i].batch == recs[j].batch
      requires total == yielded + (Items(recs) + Delivered(stream.rest))
      requires Outcome(stream.rest, stream.ending) == verdict && cancelSet && !stream.cancelled
      modifies this`buf, this`bufPos
      ensures Conserved() && Delivering() && buf == recs && bufPos == 0
    {
      buf := recs;
      bufPos := 0;
      assert Unread() == recs;
    }

    constructor (stream: ResponseStream)
      requires !stream.cancelled
      ensures this.stream == stream && total == Delivered(stream.rest)
      ensures verdict == Outcome(stream.rest, stream.ending) && refCount == 1 && schema == None && !done
      ensures Idle() && yielded == []
    {
      refCount, schema, this.stream, cancelSet := 1, None, stream, true;
      buf, bufPos, cur, err, done := [], 0, None, None, false;
      total, verdict := Delivered(stream.rest), Outcome(stream.rest, stream.ending);
      retained, released, yielded := [], [], [];
    }

    method Retain()
      requires Valid() && refCount > 0
      modifies this`refCount
      ensures Valid() && refCount == old(refCount) + 1
    {
      refCount := refCount + 1;
    }

    /** The last release gives back the current and every unread record, each once, and
        cancels the stream; any other release only counts. */
    method Release()
      requires Conserved() && (refCount > 0 ==> Delivering()) && (refCount <= 0 ==> TornDown())
      modifies this, stream`cancelled
      ensures refCount == old(refCount) - 1 && yielded == old(yielded) && err == old(err) && schema == old(schema)
      ensures old(refCount) == 1 ==> Valid() && released == retained
      ensures old(refCount) != 1 ==> buf == old(buf) && bufPos == old(bufPos) && cur == old(cur)
                                     && released == old(released) && cancelSet == old(cancelSet)
                                     && stream.cancelled == old(stream.cancelled)
      ensures retained == old(retained) && done == old(done)
    {
      refCount := refCount - 1;
      if refCount != 0 {
        return;
      }
      TearDown();
    }

    method TearDown()
      requires Conserved() && bufPos <= |buf|
      modifies this`cur, this`buf, this`released, this`cancelSet, stream`cancelled
      ensures buf == [] && cur == None && released == retained && !cancelSet
      ensures stream.cancelled == (old(cancelSet) || old(stream.cancelled))
    {
      if cur.Some? {
        released := released + [cur.value];
        cur := None;
      }
      ghost var base, unread := released, Unread();
      assert retained == base + unread;
      for i := bufPos to |buf|
        invariant released == base + unread[..i - bufPos]
        modifies `released
      {
        assert unread[..i + 1 - bufPos] == unread[..i - bufPos] + [buf[i]];
        Assoc(base, unread[..i - bufPos], [buf[i]]);
        released := released + [buf[i]];
      }
      assert unread[..|buf| - bufPos] == unread;
      buf := [];
      if cancelSet {
        stream.cancelled := true;
        cancelSet := false;
      }
    }

    /** Yields the next item of the stream, and false exactly when all are yielded; the
        error is then the stream's own. Nothing is received once the stream is done. */
    method Next() returns (more: bool)
      requires Valid() && refCount > 0
      modifies this, stream`rest, stream`received
      ensures Valid() && refCount == old(refCount) && schema == old(schema)
      ensures more == (|old(yielded)| < |total|)
      ensures more ==> cur.Some? && cur.value.item == total[|old(yielded)|]
      ensures yielded == old(yielded) + (if more then [cur.value.item] else [])
      ensures yielded <= total
      ensures !more ==> cur == None && done && err == verdict
      ensures old(done) ==> stream.received == old(stream.received)
    {
      DropCurrent();
      if err.Some? {
        return false;
      }
      more := Refill();
      if more {
        Advance();
      }
    }

    /** The loop of Next: makes sure that there is an unread record, or that there is none. */
    method Refill() returns (more: bool)
      requires Conserved() && Delivering() && cur == None && err == None && schema.Some?
      modifies this, stream`rest, stream`received
      ensures Conserved() && Delivering() && cur == None
      ensures yielded == old(yielded) && refCount == old(refCount) && schema == old(schema)
      ensures more ==> bufPos < |buf|
      ensures !more ==> done && yielded == total
      ensures old(done) ==> stream.received == old(stream.received)
    {
      while bufPos >= |buf|
        invariant Conserved() && Delivering() && cur == None && err == None
        invariant yielded == old(yielded) && refCount == old(refCount) && schema == old(schema)
        invariant old(done) ==> done && stream.received == old(stream.received)
        decreases !done && bufPos >= |buf|
      {
        assert Unread() == [];
        if done {
          return false;
        }
        RefillOnce();
        if err.Some? {
          return false;
        }
      }
      return true;
    }

    /** Forgets the batch that was read and fills again. */
    method RefillOnce()
      requires Conserved() && Delivering() && cur == None && err == None && schema.Some? && !done && Unread() == []
      modifies this, stream`rest, stream`received
      ensures Conserved() && Delivering() && cur == None && (done || bufPos < |buf|)
      ensures yielded == old(yielded) && refCount == old(refCount) && schema == old(schema)
    {
      buf := [];
      bufPos := 0;
      assert Idle();
      Fill();
    }

    /** The first lines of Next: the previous record is given back. */
    method DropCurrent()
      requires Conserved() && Delivering()
      modifies this`cur, this`released
      ensures Conserved() && Delivering() && cur == None
    {
      if cur.Some? {
        released := released + [cur.value];
        cur := None;
      }
    }

    /** The last lines of Next: the next unread record becomes the current one. */
    method Advance()
      requires Conserved() && Delivering() && cur == None && bufPos < |buf|
      modifies this`cur, this`bufPos, this`yielded
      ensures Conserved() && Delivering()
      ensures cur.Some? && yielded == old(yielded) + [cur.value.item] && |old(yielded)| < |total|
      ensures cur.value.item == total[|old(yielded)|]
    {
      ghost var head, rest := buf[bufPos], buf[bufPos + 1..];
      assert Unread() == [head] + rest;
      ItemsCons(head, rest);
      FirstMoves(total, yielded, head.item, Items(rest), ToCome());
      Assoc(released, [head], rest);
      cur := Some(buf[bufPos]);
      bufPos := bufPos + 1;
      yielded := yielded + [cur.value.item];
    }
  }

  lemma ItemsCons(head: Record, rest: seq<Record>)
    ensures Items([head] + rest) == [head.item] + Items(rest)
  {
  }

  lemma FirstMoves<T>(total: seq<T>, done: seq<T>, x: T, rest: seq<T>, last: seq<T>)
    requires total == done + (([x] + rest) + last)
    ensures total == (done + [x]) + (rest + last)
    ensures done + [x] <= total
  {
  }

  /** Primes the first batch. Fails exactly when the stream fails before delivering
      anything; then every reference it took has been given back and the stream is
      cancelled. `reader` is the reader that was made, returned or not. */
  method NewResultReader(stream: ResponseStream)
    returns (r: Result<ResultReader, ReadError>, ghost reader: ResultReader)
    requires !stream.cancelled
    modifies stream
    ensures fresh(reader) && reader.Valid() && reader.stream == stream
    ensures r.Ok? ==> r.value == reader
    ensures r.Err? ==> reader.refCount == 0 && reader.TornDown() && reader.released == reader.retained
    ensures var all := old(stream.rest);
            if Delivered(all) == [] && Outcome(all, stream.ending).Some?
            then r == Err(Outcome(all, stream.ending).value) && stream.cancelled
            else && r.Ok?
                 && r.value.total == Delivered(all) && r.value.verdict == Outcome(all, stream.ending)
                 && r.value.refCount == 1 && r.value.yielded == [] && r.value.cur == None
                 && r.value.schema == Some(FirstSchema(all).GetOr(""))
  {
    var made := new ResultReader(stream);
    reader := made;
    made.Fill();
    assert made.err.Some? ==> made.total == [];
    if made.err.Some? {
      var e := made.err.value;
      made.Release();
      return Err(e), reader;
    }
    if made.schema == None {
      made.schema := Some("");
    }
    return Ok(made), reader;
  }

  /** The loop of ExecuteUpdate: reads a result to its end and lets it go. */
  method Drain(reader: ResultReader) returns (err: Option<ReadError>)
    requires reader.Valid() && reader.refCount == 1
    modifies reader, reader.stream
    ensures err == reader.verdict && reader.yielded == reader.total
    ensures reader.refCount == 0 && reader.released == reader.retained && reader.stream.cancelled
  {
    var more := reader.Next();
    while more
      invariant reader.Valid() && reader.refCount == 1
      invariant reader.yielded <= reader.total
      invariant !more ==> reader.yielded == reader.total && reader.err == reader.verdict
      decreases |reader.total| - |reader.yielded|, more
    {
      more := reader.Next();
    }
    err := reader.err;
    reader.Release();
  }

  /** ExecuteUpdate on a response stream, from making the reader to letting it go. A stream
      that fails is never taken for one that ends. */
  method Update(stream: ResponseStream) returns (err: Option<ReadError>, ghost items: seq<Item>)
    requires !stream.cancelled
    modifies stream
    ensures stream.cancelled
    ensures var all := old(stream.rest);
            (forall k :: 0 <= k < |all| ==> !Fails(all[k])) ==>
              && items == Flatten(Payloads(all))
              && err == match stream.ending case Eof => None case Failed(e) => Some(e)
    ensures var all := old(stream.rest);
            forall k :: 0 <= k < |all| && Fails(all[k]) && (forall i :: 0 <= i < k ==> !Fails(all[i])) ==>
              && items == Flatten(Payloads(all[..k]))
              && err == if all[k].BadHeader? then Some(all[k].error) else all[k].broken
  {
    ghost var all := stream.rest;
    if forall k :: 0 <= k < |all| ==> !Fails(all[k]) {
      WholeStream(all, stream.ending);
    }
    forall k | 0 <= k < |all| && Fails(all[k]) && (forall i :: 0 <= i < k ==> !Fails(all[i]))
      ensures Delivered(all) == Flatten(Payloads(all[..k]))
      ensures Outcome(all, stream.ending) == if all[k].BadHeader? then Some(all[k].error) else all[k].broken
    {
      BrokenStream(all, stream.ending, k);
    }
    var r, reader := NewResultReader(stream);
    if r.Err? {
      return Some(r.error), [];
    }
    err := Drain(r.value);
    items := r.value.yielded;
  }
}
