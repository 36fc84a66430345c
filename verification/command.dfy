/**
 * The request validation shared by both copies of `process_command`
 * (keyboard/kb_client.py and server/btk_server.py), and the values a
 * command connection sends back.
 */
module Command {
  import opened Common

  /** A decoded CBOR item as Python sees it; `Opaque` is any other item (number, bytes, map, ...). */
  datatype Value = Text(text: string) | Array(items: seq<Value>) | Opaque

  datatype ErrorTag = ParseError | FormatError

  /** A request that passed validation. */
  datatype Request =
    | ListPrograms
    | EditProgram(name: Value, code: Value)
    | DeletePrograms(names: seq<Value>)
    | SetProgram(name: Value)

  /** What validation makes of a decoded request: a request to run, an error reply, or a bare `None`. */
  datatype Decision = Dispatch(request: Request) | Reject(tag: ErrorTag) | NoResponse

  /** The value encoded on the wire: a key/value reply, or `None` for a `set` of the wrong arity. */
  datatype Response =
    | Error(tag: ErrorTag)
    | ProgramNames(names: set<string>)
    | FileNames(files: seq<string>)
    | Success
    | Null

  /** Exceptions a store operation lets escape. */
  datatype Exception = TypeError | FileNotFound

  /** `process_command` either returns a response or raises. */
  datatype Reply = Respond(response: Response) | Raise(exception: Exception)

  /** A non-empty list whose head is the given verb. */
  predicate HasVerb(v: Value, verb: string)
  {
    v.Array? && |v.items| > 0 && v.items[0] == Text(verb)
  }

  function Args(v: Value): seq<Value>
    requires v.Array? && |v.items| > 0
  {
    v.items[1..]
  }

  predicate KnownVerb(v: Value)
  {
    HasVerb(v, "list") || HasVerb(v, "edit") || HasVerb(v, "delete") || HasVerb(v, "set")
  }

  /** The checks `process_command` makes before calling a handler; `decoded` is None when `loads` raised. */
  function Decide(decoded: Option<Value>): (d: Decision)
    ensures d == Reject(ParseError) <==> decoded.None?
    ensures d.Dispatch? && d.request.ListPrograms? <==> decoded.Some? && HasVerb(decoded.value, "list")
    ensures d.Dispatch? && d.request.EditProgram? <==>
      decoded.Some? && HasVerb(decoded.value, "edit") && |Args(decoded.value)| == 2
    ensures d.Dispatch? && d.request.DeletePrograms? <==>
      decoded.Some? && HasVerb(decoded.value, "delete") && |Args(decoded.value)| >= 1
    ensures d.Dispatch? && d.request.SetProgram? <==>
      decoded.Some? && HasVerb(decoded.value, "set") && |Args(decoded.value)| == 1
    ensures d == NoResponse <==>
      decoded.Some? && HasVerb(decoded.value, "set") && |Args(decoded.value)| != 1
    ensures d == Reject(FormatError) <==>
      && decoded.Some?
      && (|| !KnownVerb(decoded.value)
          || (HasVerb(decoded.value, "edit") && |Args(decoded.value)| != 2)
          || (HasVerb(decoded.value, "delete") && |Args(decoded.value)| == 0))
    // a dispatched request carries the arguments in the order they came
    ensures d.Dispatch? && d.request.EditProgram? ==>
      [d.request.name, d.request.code] == Args(decoded.value)
    ensures d.Dispatch? && d.request.DeletePrograms? ==> d.request.names == Args(decoded.value)
    ensures d.Dispatch? && d.request.SetProgram? ==> [d.request.name] == Args(decoded.value)
  {
    match decoded
    case None => Reject(ParseError)
    case Some(cmds) =>
      if !cmds.Array? || |cmds.items| == 0 then Reject(FormatError)
      else
        var cmd := cmds.items[0];
        var args := cmds.items[1..];
        if cmd == Text("list") then Dispatch(ListPrograms)
        else if cmd == Text("edit") then
          if |args| != 2 then Reject(FormatError) else Dispatch(EditProgram(args[0], args[1]))
        else if cmd == Text("delete") then
          if |args| == 0 then Reject(FormatError) else Dispatch(DeletePrograms(args))
        else if cmd == Text("set") then
          if |args| != 1 then NoResponse else Dispatch(SetProgram(args[0]))
        else Reject(FormatError)
  }
}
