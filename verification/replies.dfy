/**
  How the client interprets the panel's answer to each call. The transport is
  an abstract input: a `Reply` is either a received response (status code and
  parsed body) or a transport failure.
 */
module Replies {
  import opened Outcomes
  import opened Json

  datatype Reply = Response(code: int, body: Body) | TransportError

  /** "Accepted, no content": the only success of the power and restore calls. */
  const NoContent := 204
  /** The only success of the status query. */
  const OkStatus := 200

  /**
    Outcome of a power signal (sendPowerSignal) or a restore request
    (restoreBackup): success exactly on 204, whatever the body.
   */
  function ExpectNoContent(x: Reply): (r: Result<()>)
    ensures r.Ok? <==> x.Response? && x.code == NoContent
    ensures x.Response? && x.code != NoContent ==> r == Err(UnexpectedStatus(x.code))
    ensures x.TransportError? ==> r == Err(TransportFailed)
  {
    match x
    case TransportError => Err(TransportFailed)
    case Response(code, _) => if code == NoContent then Ok(()) else Err(UnexpectedStatus(code))
  }

  /** `attributes.current_state` of a status body, read the way Gson reads it. */
  function StateField(root: Json): (r: Option<string>)
    ensures r.Some? ==> root.JObj? && "attributes" in root.fields
    // the root and `attributes` must be objects and `current_state` present; its value is read by `getAsString`
    ensures r == if root.JObj? && "attributes" in root.fields && root.fields["attributes"].JObj?
                    && "current_state" in root.fields["attributes"].fields
                 then AsString(root.fields["attributes"].fields["current_state"])
                 else None
  {
    match ObjectMember(root, "attributes")
    case None => None
    case Some(attributes) =>
      match Member(attributes, "current_state")
      case None => None
      case Some(v) => AsString(v)
  }

  /**
    Outcome of a status query (getPowerStatus): on 200 the reported state,
    any other code fails with that code, and a body without a readable
    `attributes.current_state` fails as malformed.
   */
  function CurrentState(x: Reply): (r: Result<string>)
    ensures r.Ok? <==> x.Response? && x.code == OkStatus && x.body.Parsed? && StateField(x.body.root).Some?
    ensures r.Ok? ==> r.value == StateField(x.body.root).value
    ensures x.Response? && x.code != OkStatus ==> r == Err(UnexpectedStatus(x.code))
    // a 200 whose body cannot be read fails as malformed
    ensures x.Response? && x.code == OkStatus && r.Err? ==> r == Err(Malformed)
    ensures x.TransportError? ==> r == Err(TransportFailed)
  {
    match x
    case TransportError => Err(TransportFailed)
    case Response(code, body) =>
      if code != OkStatus then Err(UnexpectedStatus(code))
      else if body.Unparsable? then Err(Malformed)
      else
        match StateField(body.root)
        case Some(s) => Ok(s)
        case None => Err(Malformed)
  }

  /** The body the panel sends for a server in state `state`. */
  function StatusBody(state: string): Json
  {
    JObj(map["attributes" := JObj(map["current_state" := JStr(state)])])
  }

  /** A 200 reply carrying a server's state is read back as exactly that state. */
  lemma CurrentStateOfStatusBody(state: string)
    ensures CurrentState(Response(OkStatus, Parsed(StatusBody(state)))) == Ok(state)
  {
    var root := StatusBody(state);
    assert ObjectMember(root, "attributes") == Some(JObj(map["current_state" := JStr(state)]));
  }
}
