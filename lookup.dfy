/**
 * `Bitdb.lookup` (index.js:145-192): the driver calls one partition lookup makes, and what
 * its promise settles with: the documents of a find or aggregate cursor, each re-encoded
 * for the caller, or the values of a distinct query, untouched.
 */
module Lookup {
  import opened Wrappers
  import opened Codec
  import opened QueryEncoding

  /** A sort or projection specification: field names with a direction or an inclusion flag. */
  type FieldSpec = seq<(string, int)>

  /** `query.distinct`; an empty field name is JavaScript's falsy one. */
  datatype Distinct = Distinct(field: string, query: Option<Json>, options: Option<Json>)

  /** `r.request`, the query object. */
  datatype Request = Request(
    find: Option<Json>,
    aggregate: Option<Json>,
    sort: Option<FieldSpec>,
    project: Option<FieldSpec>,
    limit: Option<int>,
    encoding: Schema,
    distinct: Option<Distinct>)

  /** Where a cursor's documents come from. */
  datatype Source = Find(filter: Json) | Aggregate(pipeline: Json)

  /** The driver calls one lookup makes. */
  datatype Plan =
    | CursorPlan(source: Source, sort: FieldSpec, project: Option<FieldSpec>, limit: int)
    | DistinctPlan(field: string, query: Option<Json>, options: Option<Json>)

  /** `{block_index: -1}`: newest block first. */
  const DefaultSort: FieldSpec := [("block_index", -1)]

  const DefaultLimit: int := 100

  /**
   * JavaScript truthiness of a query member: an absent member and the empty string are
   * falsy; any other string, and every object or array, even an empty one, is truthy.
   */
  predicate Given(v: Option<Json>)
  {
    v.Some? && v.value != Str("")
  }

  /** The limit a cursor gets: the request's when it is truthy, so 0 means the default too. */
  function EffectiveLimit(limit: Option<int>): int
  {
    if limit.Some? && limit.value != 0 then limit.value else DefaultLimit
  }

  /**
   * The plan of index.js:149-167 and 184-186. None when the request has no truthy find,
   * no truthy aggregate and no distinct field: then no driver call is made and the
   * lookup's promise never settles.
   */
  function PlanFor(q: Request): (p: Option<Plan>)
    ensures p.Some? && p.value.CursorPlan? <==> Given(q.find) || Given(q.aggregate)
    ensures p.Some? && p.value.DistinctPlan? <==>
      !Given(q.find) && !Given(q.aggregate) && q.distinct.Some? && q.distinct.value.field != ""
    ensures Given(q.find) ==> p.value.source == Find(q.find.value)
    ensures !Given(q.find) && Given(q.aggregate) ==> p.value.source == Aggregate(q.aggregate.value)
    ensures p.Some? && p.value.CursorPlan? ==>
      && p.value.sort == (if q.sort.Some? then q.sort.value else DefaultSort)
      && p.value.project == q.project
      && p.value.limit == EffectiveLimit(q.limit)
    ensures p.Some? && p.value.DistinctPlan? ==>
      p.value == DistinctPlan(q.distinct.value.field, q.distinct.value.query, q.distinct.value.options)
  {
    if Given(q.find) || Given(q.aggregate) then
      var source := if Given(q.find) then Find(q.find.value) else Aggregate(q.aggregate.value);
      var sort := if q.sort.Some? then q.sort.value else DefaultSort;
      Some(CursorPlan(source, sort, q.project, EffectiveLimit(q.limit)))
    else if q.distinct.Some? && q.distinct.value.field != "" then
      Some(DistinctPlan(q.distinct.value.field, q.distinct.value.query, q.distinct.value.options))
    else
      None
  }

  /** With a find present, the aggregate pipeline and the distinct query play no part. */
  lemma FindWins(q: Request, pipeline: Option<Json>, d: Option<Distinct>)
    requires Given(q.find)
    ensures PlanFor(q.(aggregate := pipeline, distinct := d)) == PlanFor(q)
  {
  }

  /** A limit of 0 is falsy and gives the same plan as no limit at all. */
  lemma ZeroLimitIsDefault(q: Request)
    ensures PlanFor(q.(limit := Some(0))) == PlanFor(q.(limit := None))
    ensures Given(q.find) || Given(q.aggregate) ==> PlanFor(q.(limit := None)).value.limit == DefaultLimit
  {
  }

  /** An empty-string find is falsy: the aggregate pipeline runs, or the distinct query, or nothing. */
  lemma EmptyFindIsFalsy(q: Request)
    requires q.find == Some(Str(""))
    ensures PlanFor(q) == PlanFor(q.(find := None))
    ensures Given(q.aggregate) ==> PlanFor(q).value.source == Aggregate(q.aggregate.value)
  {
  }

  /** A distinct plan ignores sort, projection and limit: changing them changes nothing. */
  lemma DistinctIgnoresCursorOptions(q: Request, sort: Option<FieldSpec>, project: Option<FieldSpec>, limit: Option<int>)
    requires !Given(q.find) && !Given(q.aggregate)
    ensures PlanFor(q.(sort := sort, project := project, limit := limit)) == PlanFor(q)
  {
  }

  // ---------------------------------------------------------------------------
  // Response re-encoding (index.js:170-181)

  /** A returned document: field name to stored text. */
  type Document = map<string, string>

  /** `r.response.encoding`: field name to the encoding the caller wants it in. */
  type ResponseEncoding = map<string, Enc>

  /**
   * One document as the caller receives it: every field named in spec that holds
   * non-empty (truthy) text is read as base64 and written in the named encoding.
   */
  function Reencoded(doc: Document, spec: ResponseEncoding): (r: Document)
    ensures r.Keys == doc.Keys
    ensures forall k :: k in doc && (k !in spec || doc[k] == "") ==> r[k] == doc[k]
  {
    map k | k in doc :: if k in spec && doc[k] != "" then Render(Base64Decode(doc[k]), spec[k]) else doc[k]
  }

  /**
   * The `for..in` loop of index.js:173-178 over one document. The keys of spec are taken in
   * any order; each field is read and overwritten at most once, so the order does not matter.
   */
  method ReencodeDocument(doc: Document, spec: ResponseEncoding) returns (o: Document)
    ensures o == Reencoded(doc, spec)
  {
    o := doc;
    var keys := spec.Keys;
    while keys != {}
      invariant keys <= spec.Keys
      invariant o.Keys == doc.Keys
      invariant forall k :: k in doc ==>
        o[k] == if k in spec && k !in keys && doc[k] != "" then Render(Base64Decode(doc[k]), spec[k]) else doc[k]
      decreases keys
    {
      var key :| key in keys;
      var encoding := spec[key];
      if key in o && o[key] != "" {
        assert o[key] == doc[key];
        o := o[key := Render(Base64Decode(o[key]), encoding)];
      }
      keys := keys - {key};
    }
    assert forall k :: k in o ==> o[k] == Reencoded(doc, spec)[k];
  }

  /** `docs.map(...)` of index.js:170-181: re-encodes every document when the response names an encoding. */
  method ReencodeAll(docs: seq<Document>, response: Option<ResponseEncoding>) returns (out: seq<Document>)
    ensures |out| == |docs|
    ensures forall i :: 0 <= i < |docs| ==>
      out[i] == if response.Some? then Reencoded(docs[i], response.value) else docs[i]
  {
    out := [];
    for i := 0 to |docs|
      invariant |out| == i
      invariant forall j :: 0 <= j < i ==>
        out[j] == if response.Some? then Reencoded(docs[j], response.value) else docs[j]
    {
      var o := docs[i];
      if response.Some? {
        o := ReencodeDocument(docs[i], response.value);
      }
      out := out + [o];
    }
  }

  /**
   * Re-encoding keeps every field, leaves unnamed and empty fields as they were, and gives
   * a named field the text of its bytes in the requested encoding: read back in hex or
   * base64 it gives those bytes, and when they are the utf8 of a text, utf8 gives that text.
   */
  lemma ReencodedFields(doc: Document, spec: ResponseEncoding, k: string, text: string)
    ensures Reencoded(doc, spec).Keys == doc.Keys
    ensures k in doc && (k !in spec || doc[k] == "") ==> Reencoded(doc, spec)[k] == doc[k]
    ensures k in doc && k in spec && doc[k] != "" && spec[k] != Utf8 ==>
      ToBytes(Reencoded(doc, spec)[k], spec[k]) == Base64Decode(doc[k])
    ensures k in doc && k in spec && doc[k] != "" && spec[k] == Utf8 && Base64Decode(doc[k]) == Utf8Encode(text) ==>
      Reencoded(doc, spec)[k] == text
  {
    if k in doc && k in spec && doc[k] != "" {
      if spec[k] != Utf8 {
        BytesSurviveRender(Base64Decode(doc[k]), spec[k]);
      } else {
        Utf8RoundTrip(text);
      }
    }
  }

  /**
   * A stored value that a query leaf was turned into comes back, when the response asks
   * for the encoding the literal was read in, as the literal's token, provided the token
   * is written the way that encoding writes it (any text for utf8; lower-case hex; padded
   * base64).
   */
  lemma QueryThenResponse(path: Path, x: string, schema: Schema, doc: Document, f: string)
    requires IsBinaryLeaf(path)
    requires var enc := InputEncoding(path, x, schema); Render(ToBytes(Token(x), enc), enc) == Token(x)
    requires f in doc && doc[f] == LeafImage(path, x, schema)
    ensures Reencoded(doc, map[f := InputEncoding(path, x, schema)])[f] == Token(x)
  {
    var enc := InputEncoding(path, x, schema);
    var b := ToBytes(Token(x), enc);
    var spec := map[f := enc];
    assert doc[f] == Base64Encode(b);
    Base64RoundTrip(b);
    if doc[f] == "" {
      assert b == [];
      assert Render([], enc) == "" by {
        assert HexEncode([]) == "" && Utf8Decode([]) == "" && Base64Encode([]) == "";
      }
    } else {
      assert Reencoded(doc, spec)[f] == Render(Base64Decode(doc[f]), enc);
    }
  }

  /** Every text meets the condition for utf8, and every lower-case hex rendering meets it for hex. */
  lemma CanonicalTokens(s: string, b: seq<Byte>)
    ensures Render(ToBytes(s, Utf8), Utf8) == s
    ensures Render(ToBytes(HexEncode(b), Hex), Hex) == HexEncode(b)
  {
    TextSurvivesUtf8(s);
    HexRoundTrip(b);
  }

  /** Upper-case hex does not come back as written: the store has bytes, and bytes are shown in lower case. */
  lemma UpperCaseHexComesBackLower()
    ensures Render(ToBytes("6D02", Hex), Hex) == "6d02"
  {
    assert ToBytes("6D02", Hex) == [0x6d, 0x02];
  }

  // ---------------------------------------------------------------------------
  // What a lookup settles with

  /** The rows a lookup resolves with: documents from a cursor, or the values of a distinct query. */
  datatype Rows = DocumentRows(docs: seq<Document>) | ValueRows(values: seq<Json>)

  /** The state of a promise: resolved with a value, rejected with a reason, or never settled. */
  datatype Settlement<T> = Resolved(value: T) | Rejected(reason: string) | Pending

  /** What the driver did for a plan. */
  datatype Reply =
    | Documents(docs: seq<Document>)   // the cursor's toArray delivered these documents
    | Values(values: seq<Json>)        // collection.distinct resolved with these values
    | Threw(reason: string)            // a driver call threw inside the promise executor
    | NoReply                          // toArray reported an error, or the distinct promise rejected

  /**
   * The replies the driver can give for a plan. NoReply covers the two ways a lookup is
   * left unsettled: an error from toArray leaves `docs` undefined and the callback throws
   * outside the executor, and a rejected distinct promise has no handler.
   */
  predicate Answers(p: Plan, reply: Reply)
  {
    match reply
    case Documents(_) => p.CursorPlan?
    case Values(_) => p.DistinctPlan?
    case Threw(_) => true
    case NoReply => true
  }

  /** The settlement of the promise index.js:147 returns. */
  function Settle(q: Request, response: Option<ResponseEncoding>, reply: Reply): (s: Settlement<Rows>)
    requires PlanFor(q).Some? ==> Answers(PlanFor(q).value, reply)
    ensures s.Pending? <==> PlanFor(q).None? || reply.NoReply?
    ensures s.Rejected? <==> PlanFor(q).Some? && reply.Threw?
    ensures s.Rejected? ==> s.reason == reply.reason
    ensures s.Resolved? && reply.Values? ==> s.value == ValueRows(reply.values)
    ensures s.Resolved? && reply.Documents? ==>
      s.value.DocumentRows? && |s.value.docs| == |reply.docs|
      && forall i :: 0 <= i < |reply.docs| ==>
           s.value.docs[i] == if response.Some? then Reencoded(reply.docs[i], response.value) else reply.docs[i]
  {
    if PlanFor(q).None? then Pending
    else
      match reply
      case Documents(docs) =>
        Resolved(DocumentRows(seq(|docs|, i requires 0 <= i < |docs| =>
          if response.Some? then Reencoded(docs[i], response.value) else docs[i])))
      case Values(values) => Resolved(ValueRows(values))
      case Threw(reason) => Rejected(reason)
      case NoReply => Pending
  }

  /**
   * A distinct lookup resolves with exactly the driver's values: no re-encoding, whatever
   * the response asks for (index.js:184-189).
   */
  lemma DistinctValuesUntouched(q: Request, response: Option<ResponseEncoding>, values: seq<Json>)
    requires !Given(q.find) && !Given(q.aggregate) && q.distinct.Some? && q.distinct.value.field != ""
    ensures Settle(q, response, Values(values)) == Resolved(ValueRows(values))
  {
  }

  /** A cursor lookup resolves with one re-encoded document per document the driver gave. */
  lemma CursorDocumentsReencoded(q: Request, response: ResponseEncoding, docs: seq<Document>)
    requires Given(q.find) || Given(q.aggregate)
    ensures var s := Settle(q, Some(response), Documents(docs));
      && s.Resolved? && s.value.DocumentRows? && |s.value.docs| == |docs|
      && forall i :: 0 <= i < |docs| ==> s.value.docs[i] == Reencoded(docs[i], response)
  {
  }

  /** Without a response encoding the documents pass through untouched. */
  lemma NoResponseEncodingPassesThrough(q: Request, docs: seq<Document>)
    requires Given(q.find) || Given(q.aggregate)
    ensures Settle(q, None, Documents(docs)) == Resolved(DocumentRows(docs))
  {
    var s := Settle(q, None, Documents(docs));
    assert s.value.docs == docs;
  }
}
