/**
 * The `/api/contact` route handler: method check, input check, construction
 * of the stored document, and the status and JSON body sent back. The
 * database connection and the insert are replaced by given outcomes that
 * carry the fixed error texts of the two database helpers.
 */
module ContactApi {
  import opened Wrappers
  import opened JsText
  import opened JsObject

  /** Fixed configuration: database and collection the messages go to. */
  const DatabaseName := "Contact-Form"
  const CollectionName := "messages"

  /** The texts of the errors the two database helpers throw. */
  const ConnectErrorMessage := "Failed to connect to the database."
  const InsertErrorMessage := "Failed to insert form document."

  const MethodNotAllowedMessage := "Method not allowed"
  const InvalidInputMessage := "Invalid input"
  const StoredMessage := "Successfully stored message!."

  /** `new Date()` at the time of the request, as an opaque instant. */
  type Timestamp = int

  /** A stored contact submission: the three fields, the server's date and, once inserted, `_id`. */
  datatype ContactDoc = ContactDoc(email: string, name: string, message: string, date: Timestamp, id: Option<string>)

  /** The JSON values a reply body carries. */
  datatype Json = JText(text: string) | JDoc(doc: ContactDoc)

  /** How `client.connect()` ends. */
  datatype ConnectOutcome = Connected | ConnectFailed

  /** How `collection.insertOne(document)` ends: acknowledged with the new id, or thrown. */
  datatype InsertOutcome = Inserted(insertedId: string) | InsertFailed

  /** The request body's fields, all strings; a field that is not sent is absent. */
  type RequestBody = map<string, string>

  /** Destructuring `const { email, name, message } = req.body`. */
  function Field(body: RequestBody, key: string): (v: Option<string>)
    ensures v == None <==> key !in body
    ensures key in body ==> v == Some(body[key])
  {
    if key in body then Some(body[key]) else None
  }

  /** `!v` on a string-or-undefined: absent or empty. */
  predicate Falsy(v: Option<string>)
  {
    v.None? || v.value == ""
  }

  /** The handler's input check, whose failure answers 422. */
  function InputRejected(email: Option<string>, name: Option<string>, message: Option<string>): (rejected: bool)
    ensures rejected <==>
      || email.None? || Blank(email.value) || '@' !in email.value
      || name.None? || Blank(name.value)
      || message.None? || Blank(message.value)
  {
    || Falsy(email) || Trim(email.value) == "" || '@' !in email.value
    || Falsy(name) || Trim(name.value) == ""
    || Falsy(message) || Trim(message.value) == ""
  }

  /** What one request ends with: status, JSON body, and the document stored, if any. */
  datatype Reply = Reply(status: int, payload: map<string, Json>, stored: Option<ContactDoc>)

  /** `res.status(code).json({ message: text })`. */
  function MessageReply(status: int, text: string): (reply: Reply)
    ensures reply.payload == map["message" := JText(text)] && reply.stored == None
  {
    LiteralLastWins([Property("message", JText(text))], 0, "message");
    Reply(status, Literal([Property("message", JText(text))]), None)
  }

  /** The 201 body `{ message: "Successfully stored message!.", message: newMessage }`. */
  function StoredPayload(doc: ContactDoc): (payload: map<string, Json>)
    ensures payload == map["message" := JDoc(doc)]
  {
    var members := [Property("message", JText(StoredMessage)), Property("message", JDoc(doc))];
    LiteralLastWins(members, 1, "message");
    Literal(members)
  }

  /** The reply to one request, given the request and the outcomes of the database steps. */
  function Respond(verb: string, body: RequestBody, now: Timestamp,
                   connect: ConnectOutcome, insert: InsertOutcome): (reply: Reply)
    ensures verb != "POST" ==> reply == Reply(405, map["message" := JText(MethodNotAllowedMessage)], None)
    ensures verb == "POST" && InputRejected(Field(body, "email"), Field(body, "name"), Field(body, "message")) ==>
              reply == Reply(422, map["message" := JText(InvalidInputMessage)], None)
    ensures reply.status == 201 <==> reply.stored.Some?
    ensures reply.stored.Some? <==>
              && verb == "POST"
              && !InputRejected(Field(body, "email"), Field(body, "name"), Field(body, "message"))
              && connect.Connected? && insert.Inserted?
    ensures reply.stored.Some? ==>
              && reply.stored.value == ContactDoc(body["email"], body["name"], body["message"], now, Some(insert.insertedId))
              && reply.payload == map["message" := JDoc(reply.stored.value)]
    ensures reply.status == 500 <==>
              && verb == "POST"
              && !InputRejected(Field(body, "email"), Field(body, "name"), Field(body, "message"))
              && (connect.ConnectFailed? || insert.InsertFailed?)
    ensures reply.status == 500 ==>
              reply.payload == map["message" := JText(if connect.ConnectFailed? then ConnectErrorMessage else InsertErrorMessage)]
  {
    if verb != "POST" then MessageReply(405, MethodNotAllowedMessage)
    else
      var email, name, message := Field(body, "email"), Field(body, "name"), Field(body, "message");
      if InputRejected(email, name, message) then MessageReply(422, InvalidInputMessage)
      else
        var newMessage := ContactDoc(email.value, name.value, message.value, now, None);
        match (connect, insert)
        case (ConnectFailed, _) => MessageReply(500, ConnectErrorMessage)
        case (Connected, InsertFailed) => MessageReply(500, InsertErrorMessage)
        case (Connected, Inserted(id)) =>
          var doc := newMessage.(id := Some(id));
          Reply(201, StoredPayload(doc), Some(doc))
  }

  /** Two bodies that agree on `email`, `name` and `message`. */
  predicate SameFields(a: RequestBody, b: RequestBody)
  {
    Field(a, "email") == Field(b, "email") && Field(a, "name") == Field(b, "name") &&
    Field(a, "message") == Field(b, "message")
  }

  /**
   * Only the three fields matter: any other body field, a `date` or an `_id`
   * included, changes neither the outcome nor what is stored.
   */
  lemma OtherBodyFieldsIgnored(verb: string, a: RequestBody, b: RequestBody, now: Timestamp,
                               connect: ConnectOutcome, insert: InsertOutcome)
    requires SameFields(a, b)
    ensures Respond(verb, a, now, connect, insert) == Respond(verb, b, now, connect, insert)
  {
  }

  /** The stored document's date is the server's clock, whatever the client sent. */
  lemma StoredDateIsServerTime(verb: string, body: RequestBody, now: Timestamp,
                               connect: ConnectOutcome, insert: InsertOutcome)
    requires Respond(verb, body, now, connect, insert).stored.Some?
    ensures Respond(verb, body, now, connect, insert).stored.value.date == now
    ensures Respond(verb, body, now, connect, insert).stored.value.id == Some(insert.insertedId)
  {
  }

  /** The database: a list of documents per (database, collection). */
  class DocumentStore {
    var collections: map<(string, string), seq<ContactDoc>>

    constructor ()
      ensures collections == map[]
    {
      collections := map[];
    }

    /** The documents of one collection; empty when it does not exist yet. */
    function Documents(db: string, collection: string): seq<ContactDoc>
      reads this
    {
      if (db, collection) in collections then collections[(db, collection)] else []
    }

    /** `insertFormDocument(client, dbName, collectionName, document)`, ending as `outcome` says. */
    method InsertFormDocument(db: string, collection: string, doc: ContactDoc, outcome: InsertOutcome)
      returns (result: Option<string>)
      modifies this
      ensures result == if outcome.Inserted? then Some(outcome.insertedId) else None
      ensures outcome.Inserted? ==>
                collections == old(collections)[(db, collection) := old(Documents(db, collection)) + [doc.(id := result)]]
      ensures outcome.InsertFailed? ==> collections == old(collections)
    {
      match outcome
      case InsertFailed =>
        result := None;
      case Inserted(id) =>
        collections := collections[(db, collection) := Documents(db, collection) + [doc.(id := Some(id))]];
        result := Some(id);
    }
  }

  /** The Next.js response object: status code and the JSON body sent, if any. */
  class ApiResponse {
    var statusCode: int
    var body: Option<map<string, Json>>

    constructor ()
      ensures statusCode == 200 && body == None
    {
      statusCode := 200;
      body := None;
    }

    /** `res.status(code).json(payload)`. */
    method Send(code: int, payload: map<string, Json>)
      modifies this
      ensures statusCode == code && body == Some(payload)
    {
      statusCode := code;
      body := Some(payload);
    }
  }

  /** `handler(req, res)`, run to completion with the given database outcomes. */
  method Handler(verb: string, body: RequestBody, now: Timestamp,
                 connect: ConnectOutcome, insert: InsertOutcome,
                 res: ApiResponse, store: DocumentStore)
    modifies res, store
    ensures var reply := Respond(verb, body, now, connect, insert);
      && res.statusCode == reply.status && res.body == Some(reply.payload)
      && store.collections == if reply.stored.Some? then
           old(store.collections)[(DatabaseName, CollectionName) :=
             old(store.Documents(DatabaseName, CollectionName)) + [reply.stored.value]]
         else old(store.collections)
  {
    if verb == "POST" {
      var email, name, message := Field(body, "email"), Field(body, "name"), Field(body, "message");
      if InputRejected(email, name, message) {
        res.Send(422, Literal([Property("message", JText(InvalidInputMessage))]));
        return;
      }
      var newMessage := ContactDoc(email.value, name.value, message.value, now, None);
      if connect.ConnectFailed? {
        res.Send(500, Literal([Property("message", JText(ConnectErrorMessage))]));
        return;
      }
      var insertedId := store.InsertFormDocument(DatabaseName, CollectionName, newMessage, insert);
      if insertedId.None? {
        res.Send(500, Literal([Property("message", JText(InsertErrorMessage))]));
        return;
      }
      newMessage := newMessage.(id := insertedId);
      res.Send(201, Literal([Property("message", JText(StoredMessage)), Property("message", JDoc(newMessage))]));
    } else {
      res.Send(405, Literal([Property("message", JText(MethodNotAllowedMessage))]));
    }
  }
}
