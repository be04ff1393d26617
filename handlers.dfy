/**
 * The five route handlers of each entity, apart from the statements they
 * build: how the driver's answer to a statement becomes an HTTP status and a
 * JSON body.  The handlers are the same for students, courses and
 * enrollments except for the nouns, so each is written once over a `Schema`.
 */
module Handlers {
  import opened Wrappers
  import opened JsValues
  import opened SqlText
  import opened Schemas
  import opened Builders

  /** The JSON the handlers send back. */
  datatype Payload =
    | ErrorBody(error: string)
    | RecordBody(record: Row)
    | RowsBody(rows: seq<Row>)
    | MessageBody(message: string)
    | CreatedBody(message: string, idField: string, id: nat)

  datatype Response = Response(status: nat, payload: Payload)

  predicate IsError(r: Response) {
    r.payload.ErrorBody?
  }

  /** The answer to an update whose body names no field with a truthy value. */
  function NoFieldsToUpdate(): (r: Response)
    ensures r.status == 400 && IsError(r)
  {
    Response(400, ErrorBody("No fields to update"))
  }

  /** POST: any driver error is a 500; otherwise 201 with the generated key
      under the primary key's name, whatever the affected-row count. */
  function CreateResponse(s: Schema, reply: WriteReply): (r: Response)
    ensures r.status == 201 <==> reply.Written?
    ensures r.status == 500 <==> reply.WriteFailed?
    ensures IsError(r) <==> r.status == 500
    ensures reply.Written? ==> r.payload.CreatedBody? && r.payload.idField == s.primaryKey && r.payload.id == reply.insertId
  {
    match reply
    case WriteFailed(_) => Response(500, ErrorBody("Failed to create " + s.noun))
    case Written(_, insertId) => Response(201, CreatedBody(s.title + " created successfully", s.primaryKey, insertId))
  }

  /** GET of the collection: a driver error is a 500; otherwise 200 with
      every row, an empty list included. */
  function ListResponse(s: Schema, reply: SelectReply): (r: Response)
    ensures r.status == 200 <==> reply.Rows?
    ensures r.status == 500 <==> reply.SelectFailed?
    ensures IsError(r) <==> r.status == 500
    ensures reply.Rows? ==> r.payload == RowsBody(reply.rows)
  {
    match reply
    case SelectFailed(_) => Response(500, ErrorBody("Failed to fetch " + s.table))
    case Rows(rows) => Response(200, RowsBody(rows))
  }

  /** GET by id: a driver error is a 500, no row a 404, and otherwise 200
      with the first row alone. */
  function GetResponse(s: Schema, reply: SelectReply): (r: Response)
    ensures r.status == 500 <==> reply.SelectFailed?
    ensures r.status == 404 <==> reply == Rows([])
    ensures r.status == 200 <==> reply.Rows? && |reply.rows| > 0
    ensures IsError(r) <==> r.status != 200
    ensures r.status == 200 ==> r.payload == RecordBody(reply.rows[0])
  {
    match reply
    case SelectFailed(_) => Response(500, ErrorBody("Failed to fetch " + s.noun))
    case Rows(rows) =>
      if |rows| == 0 then Response(404, ErrorBody(s.title + " not found"))
      else Response(200, RecordBody(rows[0]))
  }

  /** The shared shape of PUT and DELETE after the statement ran: a driver
      error is a 500, no matched row a 404, and otherwise 200. */
  function AffectedResponse(reply: WriteReply, failure: string, notFound: string, success: string): (r: Response)
    ensures r.status == 500 <==> reply.WriteFailed?
    ensures r.status == 404 <==> reply.Written? && reply.affectedRows == 0
    ensures r.status == 200 <==> reply.Written? && reply.affectedRows > 0
    ensures IsError(r) <==> r.status != 200
  {
    match reply
    case WriteFailed(_) => Response(500, ErrorBody(failure))
    case Written(affected, _) =>
      if affected == 0 then Response(404, ErrorBody(notFound))
      else Response(200, MessageBody(success))
  }

  function UpdateResponse(s: Schema, reply: WriteReply): (r: Response)
    ensures r.status == 500 <==> reply.WriteFailed?
    ensures r.status == 404 <==> reply.Written? && reply.affectedRows == 0
    ensures r.status == 200 <==> reply.Written? && reply.affectedRows > 0
  {
    AffectedResponse(reply, "Failed to update " + s.noun, s.title + " not found", s.title + " updated successfully")
  }

  function DeleteResponse(s: Schema, reply: WriteReply): (r: Response)
    ensures r.status == 500 <==> reply.WriteFailed?
    ensures r.status == 404 <==> reply.Written? && reply.affectedRows == 0
    ensures r.status == 200 <==> reply.Written? && reply.affectedRows > 0
  {
    AffectedResponse(reply, "Failed to delete " + s.noun, s.title + " not found", s.title + " deleted successfully")
  }

  /** The PUT handler: build the statement; with no truthy field answer 400
      without sending anything; otherwise send it and answer from `reply`,
      the driver's answer to it. */
  method HandleUpdate(s: Schema, id: string, body: Body, reply: WriteReply) returns (issued: Option<Query>, response: Response)
    ensures issued.None? <==> forall f :: f in s.fields ==> !Truthy(Lookup(body, f))
    ensures issued == UpdateQuery(s, id, body)
    ensures issued.None? ==> response == NoFieldsToUpdate()
    ensures issued.Some? ==> response == UpdateResponse(s, reply)
  {
    NoFieldsToUpdateIff(s, id, body);
    issued := BuildUpdate(s, id, body);
    if issued.None? {
      response := NoFieldsToUpdate();
      return;
    }
    response := UpdateResponse(s, reply);
  }
}
