/**
 * The two request handlers and the dispatcher, over the points store.
 * A request is its method, its URL path, the request body as the JSON
 * decoder leaves it, and the supply of candidate ids the UUID generator
 * would draw. `Respond` says what a request does; the methods perform
 * it on a `PointsStore`.
 */
module Server {
  import opened Wrappers
  import opened Scorer
  import opened Store
  import opened Routing

  /** The request body after reading it and decoding it as JSON into a receipt pointer. */
  datatype Body =
    | Unreadable(err: string)           // reading the body failed
    | Malformed                         // not JSON of the receipt's shape
    | Decoded(receipt: Option<Receipt>) // `null` decodes to a null receipt

  datatype Reply =
    | IdReply(id: string)               // {"id": ...}
    | PointsReply(points: int)          // {"points": ...}
    | Error(status: int, message: string)

  /** A reply together with the store it leaves behind. */
  datatype Step = Step(reply: Reply, points: map<string, int>)

  const InvalidReceipt := "The receipt is invalid"
  const NotFound := "No receipt found for that id"
  const BadRequestMessage := "Bad request"

  /** The submission will be accepted, so it needs a fresh id. */
  predicate Accepted(body: Body)
  {
    body.Decoded? && Score(body.receipt).Ok?
  }

  /** processReciept: score the receipt and record it under a fresh id, or refuse it with 400. */
  function Process(points: map<string, int>, body: Body, candidates: seq<string>): Step
    requires Accepted(body) ==> HasFresh(points, candidates)
  {
    match body
    case Unreadable(err) => Step(Error(500, err), points)
    case Malformed => Step(Error(400, InvalidReceipt), points)
    case Decoded(receipt) =>
      match Score(receipt)
      case Invalid => Step(Error(400, InvalidReceipt), points)
      case Ok(p) => Step(IdReply(FreshId(points, candidates)), Insert(points, p, candidates))
  }

  /** getPoints: the stored points of `id`, or 404. */
  function LookupReply(points: map<string, int>, id: string): Reply
  {
    if id in points then PointsReply(points[id]) else Error(404, NotFound)
  }

  /** handleRequests: route the request, then run the handler the route names. */
  function Respond(points: map<string, int>, verb: string, path: string, body: Body, candidates: seq<string>): Step
    requires Classify(verb, path) == Submit && Accepted(body) ==> HasFresh(points, candidates)
  {
    match Classify(verb, path)
    case Lookup(id) => Step(LookupReply(points, id), points)
    case Submit => Process(points, body, candidates)
    case BadRequest => Step(Error(400, BadRequestMessage), points)
  }

  /** Only an accepted submission changes the store; every other request leaves it as it was. */
  lemma {:induction false} OnlyAcceptedSubmissionsWrite(points: map<string, int>, verb: string, path: string, body: Body, candidates: seq<string>)
    requires Classify(verb, path) == Submit && Accepted(body) ==> HasFresh(points, candidates)
    ensures Respond(points, verb, path, body, candidates).points != points
      ==> Classify(verb, path) == Submit && Accepted(body)
  {
    if Classify(verb, path) == Submit && Accepted(body) {
    } else if Classify(verb, path) == Submit {
      assert Process(points, body, candidates).points == points;
    }
  }

  /**
   * An accepted submission replies with a fresh id, records the receipt's
   * score under it, and keeps every earlier entry.
   */
  lemma SubmissionRecordsScore(points: map<string, int>, path: string, receipt: Option<Receipt>, candidates: seq<string>)
    requires Classify("POST", path) == Submit
    requires Score(receipt).Ok? && HasFresh(points, candidates)
    ensures var s := Respond(points, "POST", path, Decoded(receipt), candidates);
      && s.reply.IdReply?
      && s.reply.id !in points
      && s.points.Keys == points.Keys + {s.reply.id}
      && s.points[s.reply.id] == Score(receipt).points
      && forall other :: other in points ==> s.points[other] == points[other]
  {
    InsertKeepsOthers(points, Score(receipt).points, candidates);
  }

  /** A refused submission (invalid, null or undecodable receipt) answers 400 and stores nothing. */
  lemma RefusedSubmissionStoresNothing(points: map<string, int>, path: string, body: Body, candidates: seq<string>)
    requires Classify("POST", path) == Submit
    requires body.Malformed? || (body.Decoded? && Score(body.receipt) == Invalid)
    ensures Respond(points, "POST", path, body, candidates) == Step(Error(400, InvalidReceipt), points)
  {
  }

  /** Looking up an id that was never issued answers 404. */
  lemma UnknownIdNotFound(points: map<string, int>, id: string, body: Body, candidates: seq<string>)
    requires id !in points && '/' !in id
    ensures Respond(points, "GET", "/receipts/" + id + "/points", body, candidates).reply == Error(404, NotFound)
  {
    CanonicalLookup(id);
  }

  /**
   * The service's round trip: submitting a valid receipt and then
   * requesting /receipts/{id}/points with the id it returned answers the
   * receipt's score (ids from the UUID generator never contain '/').
   */
  lemma SubmitThenLookup(points: map<string, int>, path: string, receipt: Option<Receipt>, candidates: seq<string>,
                         body: Body, more: seq<string>)
    requires Classify("POST", path) == Submit
    requires Score(receipt).Ok? && HasFresh(points, candidates)
    requires forall k :: 0 <= k < |candidates| ==> '/' !in candidates[k]
    ensures var s := Respond(points, "POST", path, Decoded(receipt), candidates);
      && s.reply.IdReply?
      && Respond(s.points, "GET", "/receipts/" + s.reply.id + "/points", body, more).reply
           == PointsReply(Score(receipt).points)
  {
    var p := Score(receipt).points;
    var id := FreshId(points, candidates);
    var s := Respond(points, "POST", path, Decoded(receipt), candidates);
    assert s == Step(IdReply(id), Insert(points, p, candidates));
    assert '/' !in id by {
      var k := FirstFresh(points, candidates);
    }
    CanonicalLookup(id);
  }

  /** processReciept on the store: calculatePoints, then generateId and the insert. */
  method ProcessReceipt(store: PointsStore, body: Body, candidates: seq<string>) returns (reply: Reply)
    requires Accepted(body) ==> HasFresh(store.points, candidates)
    modifies store
    ensures Step(reply, store.points) == Process(old(store.points), body, candidates)
  {
    match body {
      case Unreadable(err) =>
        reply := Error(500, err);
      case Malformed =>
        reply := Error(400, InvalidReceipt);
      case Decoded(receipt) =>
        var outcome := CalculatePoints(receipt);
        if outcome.Invalid? {
          reply := Error(400, InvalidReceipt);
        } else {
          var id := store.Put(outcome.points, candidates);
          reply := IdReply(id);
        }
    }
  }

  /** getPoints on the store. */
  method GetPoints(store: PointsStore, id: string) returns (reply: Reply)
    ensures reply == LookupReply(store.points, id)
  {
    var found := store.GetPoints(id);
    if found.Some? {
      reply := PointsReply(found.value);
    } else {
      reply := Error(404, NotFound);
    }
  }

  /** handleRequests on the store. */
  method HandleRequests(store: PointsStore, verb: string, path: string, body: Body, candidates: seq<string>)
    returns (reply: Reply)
    requires Classify(verb, path) == Submit && Accepted(body) ==> HasFresh(store.points, candidates)
    modifies store
    ensures Step(reply, store.points) == Respond(old(store.points), verb, path, body, candidates)
  {
    match Classify(verb, path) {
      case Lookup(id) =>
        reply := GetPoints(store, id);
      case Submit =>
        reply := ProcessReceipt(store, body, candidates);
      case BadRequest =>
        reply := Error(400, BadRequestMessage);
    }
  }
}
