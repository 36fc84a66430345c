/**
 * The keyboard client's program store (keyboard/kb_client.py): a
 * directory of named program texts, taken here as a map from file name to
 * text, and the `current_program` record, and the `process_command` that
 * serves the command connection against them.
 */
module ProgramStore {
  import opened Common
  import opened Command

  /** The `current_program` record: a name and the text loaded from that file. */
  datatype Program = Program(name: string, source: string)

  datatype Store = Store(files: map<string, string>, current: Program)

  /** What a handler returns together with the store it leaves behind. */
  datatype Handled = Handled(reply: Reply, store: Store)

  /** The active program at start-up, before any `set`. */
  const DefaultProgram: Program := Program("default", "fruit2pi.send(event)")

  /** The store at start-up: whatever the program directory holds, and the built-in program active. */
  function Boot(files: map<string, string>): (st: Store)
    ensures st.files == files
    ensures st.current.name == "default"
  {
    Store(files, DefaultProgram)
  }

  /** `list_programs`: the names in the directory; the active program is not reported. */
  function List(st: Store): (r: Response)
    ensures r.ProgramNames?
    ensures forall n :: n in r.names <==> n in st.files
  {
    ProgramNames(st.files.Keys)
  }

  /**
   * `os.path.join(programs_dir, v)`: the file a name denotes, or None where
   * the join raises TypeError because `v` is not text.
   */
  function Join(v: Value): Option<string>
  {
    match v
    case Text(n) => Some(n)
    case _ => None
  }

  /**
   * What reading a file back in text mode gives: universal newlines turn
   * both "\r\n" and a lone "\r" into "\n"; every other character is kept.
   */
  function ReadBack(t: string): (r: string)
    ensures forall i | 0 <= i < |r| :: r[i] != '\r'
    ensures (forall i | 0 <= i < |t| :: t[i] != '\r') ==> r == t
    ensures |r| <= |t|
  {
    if |t| == 0 then ""
    else if t[0] == '\r' then
      if |t| > 1 && t[1] == '\n' then "\n" + ReadBack(t[2..]) else "\n" + ReadBack(t[1..])
    else
      assert forall i | 0 <= i < |t| - 1 :: t[1..][i] == t[i + 1];
      [t[0]] + ReadBack(t[1..])
  }

  /** `t.replace(pat, rep)`: every non-overlapping occurrence of `pat`, scanning from the left, replaced. */
  function Replace(t: string, pat: string, rep: string): string
    requires |pat| > 0
    decreases |t|
  {
    if |t| < |pat| then t
    else if t[..|pat|] == pat then rep + Replace(t[|pat|..], pat, rep)
    else [t[0]] + Replace(t[1..], pat, rep)
  }

  /**
   * The read-back is the newline decoder's translation: first every
   * "\r\n" becomes "\n", then every remaining "\r" becomes "\n".
   */
  lemma {:induction false} ReadBackIsNewlineTranslation(t: string)
    decreases |t|
    ensures ReadBack(t) == Replace(Replace(t, "\r\n", "\n"), "\r", "\n")
  {
    if |t| == 0 {
    } else if t[0] == '\r' && |t| > 1 && t[1] == '\n' {
      assert t[..2] == "\r\n";
      var rest := Replace(t[2..], "\r\n", "\n");
      assert Replace(t, "\r\n", "\n") == "\n" + rest;
      LineFeedKept(rest);
      ReadBackIsNewlineTranslation(t[2..]);
    } else if t[0] == '\r' {
      if |t| == 1 {
        assert t == "\r";
        assert Replace(t, "\r\n", "\n") == t;
        assert t[..1] == "\r" && t[1..] == "";
      } else {
        assert t[..2] != "\r\n";
        var rest := Replace(t[1..], "\r\n", "\n");
        assert Replace(t, "\r\n", "\n") == "\r" + rest;
        assert ("\r" + rest)[..1] == "\r" && ("\r" + rest)[1..] == rest;
        ReadBackIsNewlineTranslation(t[1..]);
      }
    } else {
      var rest := Replace(t[1..], "\r\n", "\n");
      if |t| == 1 {
        assert Replace(t, "\r\n", "\n") == t;
        assert t == [t[0]] + "";
        assert rest == "";
      } else {
        assert t[..2] != "\r\n";
      }
      assert Replace(t, "\r\n", "\n") == [t[0]] + rest;
      var u := [t[0]] + rest;
      assert u[..1] != "\r" && u[1..] == rest;
      ReadBackIsNewlineTranslation(t[1..]);
    }
  }

  /** A leading line feed passes the second translation step unchanged. */
  lemma LineFeedKept(x: string)
    ensures Replace("\n" + x, "\r", "\n") == "\n" + Replace(x, "\r", "\n")
  {
    var u := "\n" + x;
    assert u[..1] != "\r" && u[1..] == x;
  }

  /** Reading back what was read back changes nothing more. */
  lemma ReadBackIdempotent(t: string)
    ensures ReadBack(ReadBack(t)) == ReadBack(t)
  {
  }

  /**
   * `edit_program`: writes the file. A name that is not text fails before
   * the file is opened; code that is not text fails after `open(..., 'w')`
   * has already emptied the file.
   */
  function Edit(st: Store, name: Value, code: Value): (h: Handled)
    ensures h.store.current == st.current
    ensures name.Text? && code.Text? ==>
      h.reply == Respond(Success) && h.store.files == st.files[name.text := code.text]
    ensures name.Text? && !code.Text? ==>
      h.reply == Raise(TypeError) && h.store.files == st.files[name.text := ""]
    ensures !name.Text? ==> h == Handled(Raise(TypeError), st)
  {
    match Join(name)
    case Some(path) =>
      (match code
       case Text(c) => Handled(Respond(Success), st.(files := st.files[path := c]))
       case _ => Handled(Raise(TypeError), st.(files := st.files[path := ""])))
    case None => Handled(Raise(TypeError), st)
  }

  /** Every name in the list is text. */
  predicate AllText(names: seq<Value>)
  {
    forall i | 0 <= i < |names| :: names[i].Text?
  }

  /** The texts among the names. */
  function TextNames(names: seq<Value>): set<string>
  {
    set i | 0 <= i < |names| && names[i].Text? :: names[i].text
  }

  /**
   * The loop of `delete_programs` over what is `left` of the names: each
   * iteration joins the directory with the current name or, when
   * `joinWhole`, with the whole list, and removes the file if it exists.
   */
  function DeleteLoop(st: Store, names: seq<Value>, left: seq<Value>, joinWhole: bool): Handled
    decreases |left|
  {
    if |left| == 0 then Handled(Respond(Success), st)
    else
      match Join(if joinWhole then Array(names) else left[0])
      case None => Handled(Raise(TypeError), st)
      case Some(path) => DeleteLoop(st.(files := st.files - {path}), names, left[1..], joinWhole)
  }

  /**
   * `delete_programs` as written: line 32 joins the directory with the
   * whole `names` list, which raises TypeError on the first iteration.
   */
  function DeleteAsWritten(st: Store, names: seq<Value>): (h: Handled)
    ensures h.store == st
    ensures h.reply == (if |names| == 0 then Respond(Success) else Raise(TypeError))
  {
    DeleteLoop(st, names, names, true)
  }

  /** Whenever the corrected delete succeeds on some name, the code as written answers differently. */
  lemma DeleteAsWrittenDiffers(st: Store, names: seq<Value>)
    requires |names| > 0 && AllText(names)
    ensures DeleteAsWritten(st, names).reply != Delete(st, names).reply
  {
  }

  /**
   * `["delete", "a"]` with "a" stored: as written the call raises and "a"
   * stays; joining each name instead removes it and succeeds.
   */
  lemma DeleteFinding(st: Store)
    requires "a" in st.files
    ensures DeleteAsWritten(st, [Text("a")]) == Handled(Raise(TypeError), st)
    ensures "a" in DeleteAsWritten(st, [Text("a")]).store.files
    ensures Delete(st, [Text("a")]).reply == Respond(Success)
    ensures "a" !in Delete(st, [Text("a")]).store.files
  {
  }

  /** What the per-name loop does to the store, by induction on the names left. */
  lemma {:induction false} DeleteLoopEffect(st: Store, names: seq<Value>, left: seq<Value>)
    decreases |left|
    ensures DeleteLoop(st, names, left, false).store.current == st.current
    ensures forall n | n in DeleteLoop(st, names, left, false).store.files ::
      n in st.files && DeleteLoop(st, names, left, false).store.files[n] == st.files[n]
    ensures AllText(left) ==>
      && DeleteLoop(st, names, left, false).reply == Respond(Success)
      && DeleteLoop(st, names, left, false).store.files.Keys == st.files.Keys - TextNames(left)
    ensures !AllText(left) ==> DeleteLoop(st, names, left, false).reply == Raise(TypeError)
  {
    if |left| > 0 && left[0].Text? {
      var n := left[0].text;
      DeleteLoopEffect(st.(files := st.files - {n}), names, left[1..]);
      if AllText(left) {
        forall x | x in TextNames(left) ensures x in {n} + TextNames(left[1..]) {
          var i :| 0 <= i < |left| && left[i].Text? && left[i].text == x;
          if i > 0 { assert left[1..][i - 1] == left[i]; }
        }
        forall x | x in TextNames(left[1..]) ensures x in TextNames(left) {
          var i :| 0 <= i < |left[1..]| && left[1..][i].Text? && left[1..][i].text == x;
          assert left[i + 1] == left[1..][i];
        }
      } else {
        var i :| 0 <= i < |left| && !left[i].Text?;
        assert i > 0 && left[1..][i - 1] == left[i];
      }
    }
  }

  /**
   * `delete_programs` joining each `name` in turn: absent files are skipped,
   * present ones removed; a name that is not text raises after the earlier
   * names were already removed.
   */
  function Delete(st: Store, names: seq<Value>): (h: Handled)
    ensures h.store.current == st.current
    ensures forall n | n in h.store.files :: n in st.files && h.store.files[n] == st.files[n]
    ensures AllText(names) ==>
      h.reply == Respond(Success) && h.store.files.Keys == st.files.Keys - TextNames(names)
    ensures !AllText(names) ==> h.reply == Raise(TypeError)
  {
    DeleteLoopEffect(st, names, names);
    DeleteLoop(st, names, names, false)
  }

  /**
   * `set_program`: reads the named file back in text mode into
   * `current_program`; a missing file raises FileNotFoundError and a name
   * that is not text TypeError, both leaving the store as it was.
   */
  function Set(st: Store, name: Value): (h: Handled)
    ensures h.store.files == st.files
    ensures h.reply == Respond(Success) <==> name.Text? && name.text in st.files
    ensures h.reply == Respond(Success) ==>
      h.store.current == Program(name.text, ReadBack(st.files[name.text]))
    ensures h.reply != Respond(Success) ==> h.store == st
    ensures name.Text? && name.text !in st.files ==> h.reply == Raise(FileNotFound)
    ensures !name.Text? ==> h.reply == Raise(TypeError)
  {
    match Join(name)
    case Some(path) =>
      if path in st.files then Handled(Respond(Success), st.(current := Program(name.text, ReadBack(st.files[path]))))
      else Handled(Raise(FileNotFound), st)
    case None => Handled(Raise(TypeError), st)
  }

  /** A `delete` request with at least one name. */
  predicate IsDelete(decoded: Option<Value>)
  {
    decoded.Some? && HasVerb(decoded.value, "delete") && |Args(decoded.value)| >= 1
  }

  /** The handler a validated request reaches; `corrected` picks the delete of the finding below. */
  function Run(st: Store, req: Request, corrected: bool): Handled
  {
    match req
    case ListPrograms => Handled(Respond(List(st)), st)
    case EditProgram(name, code) => Edit(st, name, code)
    case DeletePrograms(names) => if corrected then Delete(st, names) else DeleteAsWritten(st, names)
    case SetProgram(name) => Set(st, name)
  }

  function Serve(loads: Bytes -> Option<Value>, data: Bytes, st: Store, corrected: bool): Handled
  {
    match Decide(loads(data))
    case Reject(tag) => Handled(Respond(Error(tag)), st)
    case NoResponse => Handled(Respond(Null), st)
    case Dispatch(req) => Run(st, req, corrected)
  }

  /** `process_command` of the keyboard client; `loads` is the CBOR decoder, None where it raises. */
  function ProcessCommand(loads: Bytes -> Option<Value>, data: Bytes, st: Store): (h: Handled)
    // a request that fails validation never reaches the store
    ensures !Decide(loads(data)).Dispatch? ==> h.store == st
    ensures loads(data).None? ==> h.reply == Respond(Error(ParseError))
    ensures h.reply == Respond(Error(FormatError)) <==> Decide(loads(data)) == Reject(FormatError)
    ensures h.reply == Respond(Null) <==> Decide(loads(data)) == NoResponse
    // `list` answers with the directory listing whatever follows the verb
    ensures loads(data).Some? && HasVerb(loads(data).value, "list") ==>
      h == Handled(Respond(ProgramNames(st.files.Keys)), st)
    // every `delete` that passes validation raises and removes nothing
    ensures IsDelete(loads(data)) ==> h == Handled(Raise(TypeError), st)
    // a well-formed `edit` runs edit_program(name, code), a well-formed `set` runs set_program(name)
    ensures loads(data).Some? && HasVerb(loads(data).value, "edit") && |Args(loads(data).value)| == 2 ==>
      h == Edit(st, Args(loads(data).value)[0], Args(loads(data).value)[1])
    ensures loads(data).Some? && HasVerb(loads(data).value, "set") && |Args(loads(data).value)| == 1 ==>
      h == Set(st, Args(loads(data).value)[0])
  {
    Serve(loads, data, st, false)
  }

  /** The same dispatcher with the corrected delete: only `delete` requests are answered differently. */
  function ProcessCommandCorrected(loads: Bytes -> Option<Value>, data: Bytes, st: Store): (h: Handled)
    ensures IsDelete(loads(data)) ==> h == Delete(st, Args(loads(data).value))
    ensures !IsDelete(loads(data)) ==> h == ProcessCommand(loads, data, st)
  {
    Serve(loads, data, st, true)
  }

  /** An edit followed by a listing shows the name, and the file holds the new code. */
  lemma EditThenList(st: Store, name: string, code: string)
    ensures Edit(st, Text(name), Text(code)).reply == Respond(Success)
    ensures name in List(Edit(st, Text(name), Text(code)).store).names
    ensures Edit(st, Text(name), Text(code)).store.files[name] == code
  {
  }

  /** Editing the active program does not change what runs until it is set again. */
  lemma EditKeepsActiveSource(st: Store, name: string, code: string)
    requires st.current.name == name
    ensures Edit(st, Text(name), Text(code)).store.current.source == st.current.source
  {
  }

  /**
   * Setting a program right after editing it activates the edited text as
   * read back, which is exactly that text when it holds no carriage return.
   */
  lemma SetAfterEdit(st: Store, name: string, code: string)
    ensures Set(Edit(st, Text(name), Text(code)).store, Text(name)).store.current == Program(name, ReadBack(code))
    ensures (forall i | 0 <= i < |code| :: code[i] != '\r') ==>
      Set(Edit(st, Text(name), Text(code)).store, Text(name)).store.current == Program(name, code)
  {
  }

  /** A program written with "\r\n" line ends is activated with "\n" line ends. */
  lemma SetTranslatesLineEnds(st: Store)
    ensures Set(Edit(st, Text("p"), Text("a\r\nb")).store, Text("p")).store.current == Program("p", "a\nb")
  {
    assert ReadBack("a\r\nb") == "a\nb" by {
      assert "a\r\nb"[1..] == "\r\nb";
      assert "\r\nb"[2..] == "b";
    }
  }

  /** Deleting names none of which is stored leaves the store unchanged. */
  lemma DeleteAbsentIsNoOp(st: Store, names: seq<Value>)
    requires AllText(names)
    requires forall i | 0 <= i < |names| :: names[i].text !in st.files
    ensures Delete(st, names) == Handled(Respond(Success), st)
  {
  }

  /** After a delete the name is gone from the listing and `set` of it fails; the active program survives. */
  lemma SetAfterDeleteFails(st: Store, name: string)
    ensures name !in List(Delete(st, [Text(name)]).store).names
    ensures Set(Delete(st, [Text(name)]).store, Text(name)).reply == Raise(FileNotFound)
    ensures Delete(st, [Text(name)]).store.current == st.current
  {
  }
}
