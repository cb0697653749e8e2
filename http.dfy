/** What the handlers see of an HTTP exchange: the request body and the response. */
module Http {
  import opened Wrappers
  import opened Json
  import opened FakeData
  import opened CStrings

  /** A request body: empty, not parseable as JSON, or a parsed document. */
  datatype RequestBody = EmptyBody | Unparseable | Parsed(doc: Json)

  datatype Body = NoBody | JsonBody(json: Json) | TextBody(text: string)

  datatype Response = Response(status: int, body: Body)

  const StatusOk: int := 200
  const StatusBadRequest: int := 400
  const StatusNotFound: int := 404
  const StatusInternalServerError: int := 500

  /** A response whose body is the error document `{"error": message}`. */
  function ErrorResponse(status: int, message: string): Response
  {
    Response(status, JsonBody(GenerateError(message)))
  }

  function NotFoundMessage(name: string): string
  {
    "model '" + name + "' not found"
  }

  /** A 404 for a name with a NUL in it reports the name up to the NUL and drops the rest of the message. */
  lemma NotFoundMessageCut(name: string, suffix: string)
    requires !HasNul(name)
    ensures Get(GenerateError(NotFoundMessage(name + "\0" + suffix)), "error") == Some(JString("model '" + name))
  {
    var head := "model '" + name;
    var message := NotFoundMessage(name + "\0" + suffix);
    assert message == head + "\0" + suffix + "' not found";
    assert message[..|head|] == head;
    assert !HasNul(head) by {
      forall i | 0 <= i < |head| ensures head[i] != '\0' {
        if i >= 7 {
          assert head[i] == name[i - 7];
        }
      }
    }
    CStrStopsAtFirstNul(message, |head|);
  }

  /** The request's `model` member, when the document is an object holding a string there. */
  function RequestModel(doc: Json): (r: Option<string>)
    ensures r.Some? <==> Contains(doc, "model") && Get(doc, "model").value.JString?
    ensures r.Some? ==> Get(doc, "model") == Some(JString(r.value))
  {
    match Get(doc, "model")
    case Some(JString(name)) => Some(name)
    case _ => None
  }
}
