/** How the two copies of `process_command` relate. */
module DispatchAgreement {
  import opened Common
  import opened Command
  import ProgramStore
  import StubServer

  /**
   * The client and the server answer every input with the same error tag,
   * or with `None`, or with neither: they differ only in what their
   * handlers do with a well-formed request.
   */
  lemma SameValidation(loads: Bytes -> Option<Value>, data: Bytes, st: ProgramStore.Store, tag: ErrorTag)
    ensures ProgramStore.ProcessCommand(loads, data, st).reply == Respond(Error(tag)) <==>
      StubServer.ProcessCommand(loads, data) == Error(tag)
    ensures ProgramStore.ProcessCommand(loads, data, st).reply == Respond(Null) <==>
      StubServer.ProcessCommand(loads, data) == Null
  {
  }
}
