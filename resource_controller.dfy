/**
  The resource controller: query defaulting for the listing and, for each of the
  five handlers, the (status, body) it answers with for each service outcome.
  A thrown error is represented by its string form.
*/
module ResourceController {
  import opened Wrappers
  import opened Store
  import opened ResourceService

  /** The listing query; `page` and `limit` as parsed integers, None when absent or not numeric. */
  datatype Query = Query(page: Option<int>, limit: Option<int>, name: Option<string>)

  datatype Body =
    | Record(resource: Resource)
    | Listing(result: ListResult)
    | Error(message: string)
    | NoBody

  datatype Response = Response(status: nat, body: Body)

  const NotFound := "Not found"

  predicate IsSuccess(status: nat)
  {
    200 <= status < 300
  }

  /** `parseInt(x) || d`: a missing or zero parsed value falls back to the default. */
  function OrDefault(parsed: Option<int>, default: int): (v: int)
    ensures parsed.Some? && parsed.value != 0 ==> v == parsed.value
    ensures parsed.None? || parsed.value == 0 ==> v == default
  {
    if parsed.Some? && parsed.value != 0 then parsed.value else default
  }

  /** The service parameters built from a listing query: page defaults to 1, limit to 10,
      the name is passed through as it came. */
  function ListParamsOf(q: Query): (p: ListParams)
    ensures p.filterName == q.name
    ensures p.page == OrDefault(q.page, 1) && p.limit == OrDefault(q.limit, 10)
    ensures p.page != 0 && p.limit != 0
  {
    ListParams(q.name, OrDefault(q.page, 1), OrDefault(q.limit, 10))
  }

  /** Absent, non-numeric and zero values all become the defaults; other values,
      negative ones included, pass through unchanged. */
  lemma ListDefaults(q: Query)
    ensures ListParamsOf(q).page == 1 <==> (q.page.None? || q.page.value in {0, 1})
    ensures ListParamsOf(q).limit == 10 <==> (q.limit.None? || q.limit.value in {0, 10})
    ensures q.page.Some? && q.page.value < 0 ==> ListParamsOf(q).page == q.page.value
    ensures q.limit.Some? && q.limit.value < 0 ==> ListParamsOf(q).limit == q.limit.value
  {
  }

  /** A query whose page and limit are absent or non-negative yields parameters the
      listing rule is defined for. */
  lemma ListParamsInRange(q: Query)
    requires q.page.None? || q.page.value >= 0
    requires q.limit.None? || q.limit.value >= 0
    ensures ListParamsOf(q).page >= 1 && ListParamsOf(q).limit >= 1
  {
  }

  /** Create: 201 with the created resource, or 400 with the error's string form. */
  function CreateResponse(outcome: Result<Resource, string>): (r: Response)
    ensures IsSuccess(r.status) <==> outcome.Success?
    ensures outcome.Success? ==> r == Response(201, Record(outcome.value))
    ensures outcome.Failure? ==> r == Response(400, Error(outcome.error))
  {
    match outcome
    case Success(resource) => Response(201, Record(resource))
    case Failure(e) => Response(400, Error(e))
  }

  /** List: the default 200 with the service result, or 500 with the error's string form. */
  function ListResponse(outcome: Result<ListResult, string>): (r: Response)
    ensures IsSuccess(r.status) <==> outcome.Success?
    ensures outcome.Success? ==> r == Response(200, Listing(outcome.value))
    ensures outcome.Failure? ==> r == Response(500, Error(outcome.error))
  {
    match outcome
    case Success(result) => Response(200, Listing(result))
    case Failure(e) => Response(500, Error(e))
  }

  /** Get: 404 "Not found" when there is no record, otherwise 200 with it. */
  function GetResponse(found: Option<Resource>): (r: Response)
    ensures IsSuccess(r.status) <==> found.Some?
    ensures found.Some? ==> r == Response(200, Record(found.value))
    ensures found.None? ==> r == Response(404, Error(NotFound))
  {
    match found
    case Some(resource) => Response(200, Record(resource))
    case None => Response(404, Error(NotFound))
  }

  /** Update: 200 with the updated record; every failure becomes 404 "Not found". */
  function UpdateResponse(outcome: Result<Resource, string>): (r: Response)
    ensures IsSuccess(r.status) <==> outcome.Success?
    ensures outcome.Success? ==> r == Response(200, Record(outcome.value))
    ensures outcome.Failure? ==> r == Response(404, Error(NotFound))
  {
    match outcome
    case Success(resource) => Response(200, Record(resource))
    case Failure(_) => Response(404, Error(NotFound))
  }

  /** Delete: 204 with no body; every failure becomes 404 "Not found". */
  function DeleteResponse(outcome: Result<Resource, string>): (r: Response)
    ensures IsSuccess(r.status) <==> outcome.Success?
    ensures outcome.Success? ==> r == Response(204, NoBody)
    ensures outcome.Failure? ==> r == Response(404, Error(NotFound))
  {
    match outcome
    case Success(_) => Response(204, NoBody)
    case Failure(_) => Response(404, Error(NotFound))
  }

  /** Update and delete answer every failure alike: the cause of the error is not visible. */
  lemma FailuresConflated(e1: string, e2: string)
    ensures UpdateResponse(Failure(e1)) == UpdateResponse(Failure(e2)) == DeleteResponse(Failure(e1))
  {
  }

  /** Every failing answer carries an error body, with status 400, 404 or 500. */
  lemma FailuresHaveErrorBody(c: Result<Resource, string>, l: Result<ListResult, string>, g: Option<Resource>)
    ensures var rs := [CreateResponse(c), ListResponse(l), GetResponse(g), UpdateResponse(c), DeleteResponse(c)];
            forall i :: 0 <= i < |rs| && !IsSuccess(rs[i].status) ==>
              rs[i].body.Error? && rs[i].status in {400, 404, 500}
  {
  }

  /** Looking a resource up by id answers 404 "Not found" exactly when no stored row
      has that id, and otherwise 200 with the stored row (unique ids). */
  lemma {:induction false} GetByIdAnswers(t: Table, id: int)
    requires UniqueIds(t)
    ensures GetResponse(GetResource(t, id)) == Response(404, Error(NotFound)) <==>
            forall i :: 0 <= i < |t| ==> t[i].id != id
    ensures forall i :: 0 <= i < |t| && t[i].id == id ==> GetResponse(GetResource(t, id)) == Response(200, Record(t[i]))
  {
    forall i | 0 <= i < |t| && t[i].id == id
      ensures GetResponse(GetResource(t, id)) == Response(200, Record(t[i]))
    {
      GetFindsStored(t, i);
    }
  }

  /** A listing with no page or limit in the query answers 200 with the first ten
      ordered rows (fewer if there are fewer) and echoes page 1, limit 10. */
  lemma {:induction false} DefaultListing(t: Table, name: Option<string>)
    ensures var n := |Ordered(t, name)|;
            var r := ListResponse(Success(ListResources(t, ListParamsOf(Query(None, None, name)))));
            r.status == 200 && r.body.Listing? &&
            r.body.result.data == Ordered(t, name)[..if n < 10 then n else 10] &&
            r.body.result.pagination.page == 1 && r.body.result.pagination.limit == 10
  {
    var p := ListParamsOf(Query(None, None, name));
    PageLength(t, p);
    assert Offset(p.page, p.limit) == 0;
  }
}
