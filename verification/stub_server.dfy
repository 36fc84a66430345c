/**
 * The copy of `process_command` in server/btk_server.py, whose handlers
 * are stubs that ignore their arguments and always succeed.
 */
module StubServer {
  import opened Common
  import opened Command

  /** The fixed listing the stub `list_programs` answers with. */
  const StubFiles: seq<string> := ["foo", "bar"]

  function Run(req: Request): Response
  {
    match req
    case ListPrograms => FileNames(StubFiles)
    case _ => Success
  }

  /** `process_command` of the server; `loads` is the CBOR decoder, None where it raises. */
  function ProcessCommand(loads: Bytes -> Option<Value>, data: Bytes): (r: Response)
    ensures r == Error(ParseError) <==> loads(data).None?
    ensures r == Error(FormatError) <==> Decide(loads(data)) == Reject(FormatError)
    ensures r == Null <==> Decide(loads(data)) == NoResponse
    // `list` answers with the stub listing whatever arguments follow the verb
    ensures r == FileNames(StubFiles) <==> loads(data).Some? && HasVerb(loads(data).value, "list")
    // well-formed edit, delete and set requests succeed
    ensures r == Success <==>
      && loads(data).Some?
      && (|| (HasVerb(loads(data).value, "edit") && |Args(loads(data).value)| == 2)
          || (HasVerb(loads(data).value, "delete") && |Args(loads(data).value)| >= 1)
          || (HasVerb(loads(data).value, "set") && |Args(loads(data).value)| == 1))
  {
    match Decide(loads(data))
    case Reject(tag) => Error(tag)
    case NoResponse => Null
    case Dispatch(req) => Run(req)
  }
}
