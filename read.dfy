/**
 * `Bitdb.read` (index.js:90-143): encode the query, run the same lookup on the confirmed
 * and the unconfirmed partition, join the two with `Promise.all`, and hand the caller an
 * envelope: success with both row sets, or an error. As written the callback may be
 * invoked twice, and a lookup that never settles means it is never invoked.
 */
module Reader {
  import opened Wrappers
  import opened QueryEncoding
  import opened Lookup

  /** The argument `r` of read: the query, and how the caller wants fields of the answer encoded. */
  datatype Call = Call(request: Option<Request>, response: Option<ResponseEncoding>)

  /** The object read hands to its callback. */
  datatype Envelope = Success(confirmed: Rows, unconfirmed: Rows) | Failure(error: string)

  /** One invocation `cb(err, envelope)`. */
  datatype Invocation = Invocation(err: Option<string>, envelope: Envelope)

  const MissingQuery: string := "The request needs a query object"

  /**
   * The request both lookups see: its find and aggregate as the query encoder leaves them
   * (index.js:116-118). A find or aggregate that is a bare string is not rewritten.
   */
  function Prepared(q: Request): (p: Request)
    ensures p.(find := q.find, aggregate := q.aggregate) == q
    ensures p.find.Some? <==> q.find.Some?
    ensures p.aggregate.Some? <==> q.aggregate.Some?
    ensures Given(p.find) <==> Given(q.find)
    ensures Given(p.aggregate) <==> Given(q.aggregate)
  {
    q.(find := if q.find.Some? then Some(EncodeRoot(q.find.value, q.encoding)) else None,
       aggregate := if q.aggregate.Some? then Some(EncodeRoot(q.aggregate.value, q.encoding)) else None)
  }

  /**
   * Encoding the query changes only the literals of the filter or pipeline the cursor runs:
   * the plan keeps its kind, sort, projection and limit, and the cursor runs the encoded
   * filter or pipeline.
   */
  lemma PreparedPlan(q: Request)
    ensures PlanFor(Prepared(q)).Some? <==> PlanFor(q).Some?
    ensures PlanFor(q).Some? && PlanFor(q).value.DistinctPlan? ==> PlanFor(Prepared(q)) == PlanFor(q)
    ensures PlanFor(q).Some? && PlanFor(q).value.CursorPlan? ==>
      var p, p' := PlanFor(q).value, PlanFor(Prepared(q)).value;
      && p'.CursorPlan? && p'.sort == p.sort && p'.project == p.project && p'.limit == p.limit
      && p'.source.Find? == p.source.Find?
      && SourceTree(p'.source) == EncodeRoot(SourceTree(p.source), q.encoding)
  {
  }

  function SourceTree(s: Source): Json
  {
    match s
    case Find(filter) => filter
    case Aggregate(pipeline) => pipeline
  }

  /**
   * `Promise.all` over the two lookups: it rejects as soon as one lookup rejects, and
   * resolves once both resolve. A lookup rejects only by a throw inside its executor,
   * which happens while `read` builds it, the confirmed lookup first; `Promise.all`
   * subscribes to the two in that order, so when both reject the confirmed reason wins.
   */
  function All(c: Settlement<Rows>, u: Settlement<Rows>): (s: Settlement<(Rows, Rows)>)
    ensures s.Resolved? <==> c.Resolved? && u.Resolved?
    ensures s.Resolved? ==> s.value == (c.value, u.value)
    ensures s.Rejected? <==> c.Rejected? || u.Rejected?
    ensures s.Rejected? && c.Rejected? ==> s.reason == c.reason
    ensures s.Rejected? && !c.Rejected? ==> s.reason == u.reason
  {
    if c.Rejected? then Rejected(c.reason)
    else if u.Rejected? then Rejected(u.reason)
    else if c.Resolved? && u.Resolved? then Resolved((c.value, u.value))
    else Pending
  }

  /** What the driver can reply to both lookups of a call. */
  predicate Replies(r: Call, confirmed: Reply, unconfirmed: Reply)
  {
    r.request.Some? && PlanFor(Prepared(r.request.value)).Some? ==>
      Answers(PlanFor(Prepared(r.request.value)).value, confirmed) &&
      Answers(PlanFor(Prepared(r.request.value)).value, unconfirmed)
  }

  /**
   * The joined settlement of the two lookups of a call that carries a request: rows from
   * both when both resolve; the confirmed lookup's throw, else the unconfirmed one's, when
   * either throws and the request has a plan.
   */
  function Joined(r: Call, confirmed: Reply, unconfirmed: Reply): (s: Settlement<(Rows, Rows)>)
    requires r.request.Some? && Replies(r, confirmed, unconfirmed)
    ensures var q := Prepared(r.request.value);
      s.Resolved? <==> Settle(q, r.response, confirmed).Resolved? && Settle(q, r.response, unconfirmed).Resolved?
    ensures s.Rejected? <==> PlanFor(r.request.value).Some? && (confirmed.Threw? || unconfirmed.Threw?)
    ensures s.Rejected? ==> s.reason == if confirmed.Threw? then confirmed.reason else unconfirmed.reason
    ensures PlanFor(r.request.value).None? ==> s.Pending?
  {
    PreparedPlan(r.request.value);
    var q := Prepared(r.request.value);
    All(Settle(q, r.response, confirmed), Settle(q, r.response, unconfirmed))
  }

  /**
   * read as written (index.js:115-141): `.then(onSuccess).catch(onError)`. The callback is
   * the caller's code; `thrown` is what it throws when handed the success envelope. A throw
   * there rejects the promise `then` returns, and the `catch` handler calls the callback a
   * second time with that error. The invocations are listed in the order they happen.
   */
  function ReadAsWritten(r: Call, confirmed: Reply, unconfirmed: Reply, thrown: Option<string>): (calls: seq<Invocation>)
    requires Replies(r, confirmed, unconfirmed)
    ensures |calls| <= 2
    ensures forall i :: 0 <= i < |calls| ==> calls[i].err.None?
    ensures |calls| == 2 <==> r.request.Some? && Joined(r, confirmed, unconfirmed).Resolved? && thrown.Some?
    ensures |calls| == 2 ==> calls[0].envelope.Success? && calls[1].envelope == Failure(thrown.value)
  {
    if r.request.None? then
      [Invocation(None, Failure(MissingQuery))]
    else
      match Joined(r, confirmed, unconfirmed)
      case Resolved((c, u)) =>
        if thrown.Some? then
          [Invocation(None, Success(c, u)), Invocation(None, Failure(thrown.value))]
        else
          [Invocation(None, Success(c, u))]
      case Rejected(reason) => [Invocation(None, Failure(reason))]
      case Pending => []
  }

  /** The callback is invoked twice for one read: once with the rows, once with the error it threw. */
  lemma CallbackInvokedTwice()
    ensures
      var q := Request(Some(Obj([])), None, None, None, None, map[], None);
      var calls := ReadAsWritten(Call(Some(q), None), Documents([]), Documents([]), Some("TypeError"));
      && |calls| == 2
      && calls[0].envelope == Success(DocumentRows([]), DocumentRows([]))
      && calls[1].envelope == Failure("TypeError")
  {
    var q := Request(Some(Obj([])), None, None, None, None, map[], None);
    var r := Call(Some(q), None);
    assert Transform(Obj([]), [], map[]).members == [];
    assert PlanFor(Prepared(q)).Some?;
    assert Settle(Prepared(q), None, Documents([])).value.docs == [];
    assert Settle(Prepared(q), None, Documents([])) == Resolved(DocumentRows([]));
  }

  /**
   * read with the callback invoked at most once, as `.then(onSuccess, onError)` would: an
   * exception from the callback no longer reaches the error handler. None: the callback
   * is never invoked, because a lookup never settles.
   */
  function Read(r: Call, confirmed: Reply, unconfirmed: Reply): (call: Option<Invocation>)
    requires Replies(r, confirmed, unconfirmed)
    ensures call.Some? ==> call.value.err.None?
    ensures r.request.None? ==> call == Some(Invocation(None, Failure(MissingQuery)))
    ensures r.request.Some? ==>
      var j := Joined(r, confirmed, unconfirmed);
      && (call.None? <==> j.Pending?)
      && (j.Resolved? ==> call.value.envelope == Success(j.value.0, j.value.1))
      && (j.Rejected? ==> call.value.envelope == Failure(j.reason))
  {
    if r.request.None? then
      Some(Invocation(None, Failure(MissingQuery)))
    else
      match Joined(r, confirmed, unconfirmed)
      case Resolved((c, u)) => Some(Invocation(None, Success(c, u)))
      case Rejected(reason) => Some(Invocation(None, Failure(reason)))
      case Pending => None
  }

  /**
   * The corrected read makes exactly the first call of the one as written, whatever the
   * callback throws, and the two agree when the callback does not throw.
   */
  lemma ReadKeepsFirstCall(r: Call, confirmed: Reply, unconfirmed: Reply, thrown: Option<string>)
    requires Replies(r, confirmed, unconfirmed)
    ensures var calls := ReadAsWritten(r, confirmed, unconfirmed, thrown);
      && (Read(r, confirmed, unconfirmed).Some? <==> |calls| >= 1)
      && (|calls| >= 1 ==> Read(r, confirmed, unconfirmed).value == calls[0])
      && (thrown.None? ==> |calls| <= 1)
  {
  }

  /** Without a request no lookup runs: whatever the driver would reply, the caller gets the same error. */
  lemma MissingRequestNeedsNoLookup(r: Call, c: Reply, u: Reply, c': Reply, u': Reply)
    requires r.request.None?
    ensures Read(r, c, u) == Read(r, c', u')
    ensures Read(r, c, u).value.envelope == Failure(MissingQuery)
  {
  }

  /**
   * A find or aggregate read whose two cursors deliver documents succeeds, each partition
   * carrying its own documents re-encoded for the response.
   */
  lemma CursorReadSucceeds(r: Call, cdocs: seq<Document>, udocs: seq<Document>)
    requires r.request.Some? && (Given(r.request.value.find) || Given(r.request.value.aggregate))
    ensures Replies(r, Documents(cdocs), Documents(udocs))
    ensures var call := Read(r, Documents(cdocs), Documents(udocs));
      && call.Some? && call.value.envelope.Success?
      && call.value.envelope.confirmed.DocumentRows? && call.value.envelope.unconfirmed.DocumentRows?
      && |call.value.envelope.confirmed.docs| == |cdocs| && |call.value.envelope.unconfirmed.docs| == |udocs|
      && (forall i :: 0 <= i < |cdocs| ==>
            call.value.envelope.confirmed.docs[i] ==
            if r.response.Some? then Reencoded(cdocs[i], r.response.value) else cdocs[i])
      && (forall i :: 0 <= i < |udocs| ==>
            call.value.envelope.unconfirmed.docs[i] ==
            if r.response.Some? then Reencoded(udocs[i], r.response.value) else udocs[i])
  {
    PreparedPlan(r.request.value);
  }

  /**
   * One lookup throwing while its cursor is built fails the whole read with that error, and
   * the other partition's rows are discarded.
   */
  lemma OneThrowFailsRead(r: Call, reason: string, other: Reply)
    requires r.request.Some? && PlanFor(r.request.value).Some?
    requires Answers(PlanFor(Prepared(r.request.value)).value, other) && !other.Threw?
    ensures Replies(r, Threw(reason), other) && Replies(r, other, Threw(reason))
    ensures Read(r, Threw(reason), other) == Some(Invocation(None, Failure(reason)))
    ensures Read(r, other, Threw(reason)) == Some(Invocation(None, Failure(reason)))
  {
    PreparedPlan(r.request.value);
  }

  /**
   * When both lookups throw, the read fails with the confirmed lookup's error: both throws
   * happen while read builds the lookups, the confirmed one first.
   */
  lemma BothThrowConfirmedWins(r: Call, c: string, u: string)
    requires r.request.Some? && PlanFor(r.request.value).Some?
    ensures Replies(r, Threw(c), Threw(u))
    ensures Read(r, Threw(c), Threw(u)) == Some(Invocation(None, Failure(c)))
  {
    PreparedPlan(r.request.value);
  }

  /**
   * A request with no find, no aggregate and no distinct field never calls back: neither
   * lookup makes a driver call, so neither settles.
   */
  lemma PlanlessReadNeverCallsBack(r: Call, c: Reply, u: Reply)
    requires r.request.Some? && PlanFor(r.request.value).None?
    ensures Replies(r, c, u)
    ensures Read(r, c, u).None?
  {
    PreparedPlan(r.request.value);
  }
}
