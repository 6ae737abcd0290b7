/** runInteractiveMode of 03/main.go: each input line is trimmed and either
    skipped, dispatched as a slash command (/quit, /status, /load <key>) or
    asked as a question about the loaded document.  The console is modelled
    as the sequence of input lines and the sequence of events the loop
    produces, one per line handled. */
module Session {
  import opened GoStrings
  import opened Chunking
  import opened Rag

  /** How a line of input is understood. */
  datatype Command =
    | Blank                  // nothing but whitespace: skipped
    | Quit                   // "/quit"
    | Status                 // "/status"
    | LoadUsage              // "/load" without a key
    | Load(key: string)      // "/load <key>"; words after the key are ignored
    | Unknown(name: string)  // any other word starting with "/"
    | Question(text: string) // anything else, trimmed

  /** What handling one line does (what the console shows, in substance). */
  datatype Event =
    | Skipped
    | Goodbye
    | StatusReport(chunkCount: nat)        // 0 means "no document loaded"
    | LoadUsageHint
    | LoadReport(error: Option<Error>)     // None: loaded successfully
    | UnknownCommand(command: string)
    | LoadFirst                           // a question with no document
    | Answered(answer: Result<string>)

  /** The dispatch of the loop body: the line is trimmed first. */
  function Classify(line: string): Command {
    Dispatch(TrimSpace(line))
  }

  /** How a trimmed line is understood. */
  function Dispatch(input: string): Command {
    if input == [] then Blank
    else if input[0] == '/' then
      CommandWord(input);
      SlashCommand(Fields(input))
    else Question(input)
  }

  /** A command line, by its fields: the first names the command. */
  function SlashCommand(parts: seq<string>): Command
    requires parts != []
  {
    var command := parts[0];
    if command == "/quit" then Quit
    else if command == "/status" then Status
    else if command == "/load" then
      if |parts| < 2 then LoadUsage else Load(parts[1])
    else Unknown(command)
  }

  /** A line is skipped exactly when it is blank once trimmed. */
  lemma ClassifyBlank(line: string)
    ensures Classify(line) == Blank <==> TrimSpace(line) == []
  {
  }

  /** A line is a question exactly when, trimmed, it is not empty and does
      not start with "/"; the question is the trimmed line. */
  lemma ClassifyQuestionIff(line: string)
    ensures Classify(line).Question? <==> TrimSpace(line) != [] && TrimSpace(line)[0] != '/'
    ensures Classify(line).Question? ==> Classify(line).text == TrimSpace(line)
  {
  }

  /** The first field of a command line starts with "/". */
  lemma CommandWord(input: string)
    requires input != [] && input[0] == '/'
    ensures Fields(input) != [] && Fields(input)[0] != [] && Fields(input)[0][0] == '/'
    ensures HasPrefix(input, Fields(input)[0])
  {
    assert !IsSpace(input[0]);
    FieldsAreWords(input);
  }

  /** "/load" loads the second field, which is a non-empty word; with only
      one field it prints the usage hint. */
  lemma ClassifyLoadSpec(line: string)
    ensures Classify(line).Load? ==>
      var parts := Fields(TrimSpace(line));
      |parts| >= 2 && parts[0] == "/load" && parts[1] == Classify(line).key &&
      Classify(line).key != [] && NoSpace(Classify(line).key)
    ensures Classify(line).LoadUsage? ==> Fields(TrimSpace(line)) == ["/load"]
  {
    var input := TrimSpace(line);
    if input != [] && input[0] == '/' {
      var parts := Fields(input);
      CommandWord(input);
      FieldsAreWords(input);
      assert Classify(line) == SlashCommand(parts);
      if Classify(line).Load? {
        assert parts[1] in parts;
      }
    }
  }

  /** An unknown command is reported by its first field, which starts with
      "/" and is none of the three commands. */
  lemma ClassifyUnknownSpec(line: string)
    ensures Classify(line).Unknown? ==>
      var name := Classify(line).name;
      HasPrefix(TrimSpace(line), name) && name != [] && name[0] == '/' &&
      name != "/quit" && name != "/status" && name != "/load"
  {
    var input := TrimSpace(line);
    if input != [] && input[0] == '/' {
      CommandWord(input);
      assert Classify(line) == SlashCommand(Fields(input));
    }
  }

  /** "/load" followed by a blank and a space-free key loads that key. */
  lemma ClassifyLoad(key: string)
    requires key != [] && NoSpace(key)
    ensures Classify("/load " + key) == Load(key)
  {
    var line := "/load" + " " + key;
    assert "/load " + key == line;
    assert NoSpace("/load");
    TwoWordLine("/load", key);
    assert line[0] == '/';
    SlashLoad(key);
  }

  /** The fields "/load" and a key name a load of that key. */
  lemma SlashLoad(key: string)
    ensures SlashCommand(["/load", key]) == Load(key)
  {
    assert "/load"[1] == 'l';
  }

  /** A command word, one blank and an argument: trimming changes nothing
      and the fields are the two words. */
  lemma TwoWordLine(cmd: string, arg: string)
    requires cmd != [] && NoSpace(cmd) && arg != [] && NoSpace(arg)
    ensures TrimSpace(cmd + " " + arg) == cmd + " " + arg
    ensures Fields(cmd + " " + arg) == [cmd, arg]
  {
    TwoWordTrimmed(cmd, arg);
    TwoWordJoin(cmd, arg);
    FieldsJoin([cmd, arg]);
  }

  lemma TwoWordTrimmed(cmd: string, arg: string)
    requires cmd != [] && NoSpace(cmd) && arg != [] && NoSpace(arg)
    ensures TrimSpace(cmd + " " + arg) == cmd + " " + arg
  {
    var line := cmd + " " + arg;
    assert line[0] == cmd[0] && line[|line| - 1] == arg[|arg| - 1];
    TrimSpaceOfTrimmed(line);
  }

  lemma TwoWordJoin(cmd: string, arg: string)
    ensures Join([cmd, arg], " ") == cmd + " " + arg
  {
    assert [cmd, arg][1..] == [arg];
  }

  /** A trimmed line that does not start with "/" is asked as it is. */
  lemma ClassifyQuestion(q: string)
    requires q != [] && Trimmed(q) && q[0] != '/'
    ensures Classify(q) == Question(q)
  {
    TrimSpaceOfTrimmed(q);
  }

  /** The command of every input line, in order. */
  function Commands(inputs: seq<string>): (cmds: seq<Command>)
    ensures |cmds| == |inputs|
  {
    if inputs == [] then [] else [Classify(inputs[0])] + Commands(inputs[1..])
  }

  /** Command k is line k classified. */
  lemma {:induction false} CommandAt(inputs: seq<string>, k: nat)
    requires k < |inputs|
    ensures Commands(inputs)[k] == Classify(inputs[k])
  {
    if k > 0 {
      CommandAt(inputs[1..], k - 1);
    }
  }

  /** What handling a line understood as `cmd` does to the document and what
      it reports, when the document before it is `before`: only a load
      changes the chunks, and a question goes to the model only when a
      document is loaded. */
  ghost predicate Step(bucket: string, fetch: (string, string) -> Download,
                       cmd: Command, before: seq<string>, after: seq<string>, ev: Event)
  {
    match cmd
    case Blank => after == before && ev == Skipped
    case Quit => after == before && ev == Goodbye
    case Status => after == before && ev == StatusReport(|before|)
    case LoadUsage => after == before && ev == LoadUsageHint
    case Load(key) =>
      after == AfterLoad(before, fetch(bucket, key)) && ev == LoadReport(LoadError(fetch(bucket, key)))
    case Unknown(name) => after == before && ev == UnknownCommand(name)
    case Question(q) =>
      after == before && (if before == [] then ev == LoadFirst else ev.Answered?)
  }

  /** The answer to a question is the model's reply to the request Query
      builds from the document and the question. */
  ghost predicate Replied(modelID: string, invoke: (string, ModelRequest) -> Invocation,
                          cmd: Command, before: seq<string>, ev: Event)
  {
    cmd.Question? && ev.Answered? ==>
      exists request :: IsQueryRequest(before, cmd.text, request) &&
                        ev.answer == Reply(invoke(modelID, request))
  }

  /** The state rule of one step: the chunks change only through a load
      whose download succeeded, a successful load leaves a non-empty
      document, a question is answered only with a document, and only
      "/quit" says goodbye. */
  lemma StepStateRule(bucket: string, fetch: (string, string) -> Download,
                      cmd: Command, before: seq<string>, after: seq<string>, ev: Event)
    requires Step(bucket, fetch, cmd, before, after, ev)
    ensures after != before ==> cmd.Load? && fetch(bucket, cmd.key).Content?
    ensures cmd.Load? ==> (fetch(bucket, cmd.key).Content? <==> ev == LoadReport(None))
    ensures cmd.Load? && ev == LoadReport(None) ==> after != []
    ensures ev.Answered? ==> before != [] && cmd.Question?
    ensures cmd.Question? && before == [] ==> ev == LoadFirst
    ensures ev == Goodbye <==> cmd == Quit
  {
    if cmd.Load? {
      LoadOutcome(before, fetch(bucket, cmd.key));
    }
  }

  /** No step unloads a document. */
  lemma StepKeepsDocument(bucket: string, fetch: (string, string) -> Download,
                          cmd: Command, before: seq<string>, after: seq<string>, ev: Event)
    requires Step(bucket, fetch, cmd, before, after, ev)
    requires before != []
    ensures after != []
  {
    if cmd.Load? {
      LoadOutcome(before, fetch(bucket, cmd.key));
    }
  }

  /** `events` are the first |events| commands handled one after the other,
      `states[k]` being the document before command k. */
  ghost predicate Trace(bucket: string, fetch: (string, string) -> Download,
                        cmds: seq<Command>, states: seq<seq<string>>, events: seq<Event>)
  {
    |states| == |events| + 1 && |events| <= |cmds| &&
    forall k :: 0 <= k < |events| ==> Step(bucket, fetch, cmds[k], states[k], states[k + 1], events[k])
  }

  /** Handling one more command extends a trace. */
  lemma TraceExtend(bucket: string, fetch: (string, string) -> Download,
                    cmds: seq<Command>, states: seq<seq<string>>, events: seq<Event>,
                    after: seq<string>, ev: Event)
    requires Trace(bucket, fetch, cmds, states, events)
    requires |events| < |cmds|
    requires Step(bucket, fetch, cmds[|events|], states[|events|], after, ev)
    ensures Trace(bucket, fetch, cmds, states + [after], events + [ev])
  {
    var n := |events|;
    var states', events' := states + [after], events + [ev];
    forall k | 0 <= k <= n
      ensures Step(bucket, fetch, cmds[k], states'[k], states'[k + 1], events'[k])
    {
      if k < n {
        assert states'[k] == states[k] && states'[k + 1] == states[k + 1] && events'[k] == events[k];
      } else {
        assert states'[k] == states[n] && states'[k + 1] == after && events'[k] == ev;
      }
    }
  }

  /** Once a document is loaded it stays loaded for the rest of the session. */
  lemma {:induction false} DocumentStaysLoaded(bucket: string, fetch: (string, string) -> Download,
                                               cmds: seq<Command>, states: seq<seq<string>>,
                                               events: seq<Event>, i: nat, j: nat)
    requires Trace(bucket, fetch, cmds, states, events)
    requires i <= j < |states| && states[i] != []
    ensures states[j] != []
    decreases j - i
  {
    if i < j {
      StepKeepsDocument(bucket, fetch, cmds[i], states[i], states[i + 1], events[i]);
      DocumentStaysLoaded(bucket, fetch, cmds, states, events, i + 1, j);
    }
  }

  /** In a session, every change of the document is a successful load of
      the key on that line, replacing the chunks by those of the content. */
  lemma SessionStateRules(bucket: string, fetch: (string, string) -> Download,
                          cmds: seq<Command>, states: seq<seq<string>>,
                          events: seq<Event>, k: nat)
    requires Trace(bucket, fetch, cmds, states, events)
    requires k < |events|
    ensures events[k].Answered? ==> states[k] != [] && cmds[k].Question?
    ensures states[k + 1] != states[k] ==>
      cmds[k].Load? && fetch(bucket, cmds[k].key).Content? &&
      states[k + 1] == ChunkText(fetch(bucket, cmds[k].key).text, ChunkSize)
  {
    StepStateRule(bucket, fetch, cmds[k], states[k], states[k + 1], events[k]);
  }

  /** Every answer is the model's reply to a prompt that holds the
      question and at least one chunk of the document loaded then. */
  lemma AnswerGrounded(bucket: string, fetch: (string, string) -> Download,
                       modelID: string, invoke: (string, ModelRequest) -> Invocation,
                       cmd: Command, before: seq<string>, after: seq<string>, ev: Event)
    requires Step(bucket, fetch, cmd, before, after, ev)
    requires Replied(modelID, invoke, cmd, before, ev)
    requires ev.Answered?
    ensures cmd.Question? && before != []
    ensures exists request :: GroundedRequest(before, cmd.text, request) &&
                              ev.answer == Reply(invoke(modelID, request))
  {
    StepStateRule(bucket, fetch, cmd, before, after, ev);
    ReplyGrounded(modelID, invoke, cmd, before, ev);
  }

  /** A reply given with a document loaded is grounded in that document. */
  lemma ReplyGrounded(modelID: string, invoke: (string, ModelRequest) -> Invocation,
                      cmd: Command, before: seq<string>, ev: Event)
    requires Replied(modelID, invoke, cmd, before, ev)
    requires cmd.Question? && ev.Answered? && before != []
    ensures exists request :: GroundedRequest(before, cmd.text, request) &&
                              ev.answer == Reply(invoke(modelID, request))
  {
    var request :| IsQueryRequest(before, cmd.text, request) &&
                   ev.answer == Reply(invoke(modelID, request));
    QueryRequestGrounded(before, cmd.text, request);
    assert GroundedRequest(before, cmd.text, request);
  }

  /** The prompt of `request` holds `question` and some chunk of `chunks`. */
  ghost predicate GroundedRequest(chunks: seq<string>, question: string, request: ModelRequest) {
    Contains(request.prompt, question) &&
    exists i :: 0 <= i < |chunks| && Contains(request.prompt, chunks[i])
  }

  /** The loop body of runInteractiveMode for one line. */
  method HandleLine(rag: RAGSystem, line: string,
                    fetch: (string, string) -> Download,
                    invoke: (string, ModelRequest) -> Invocation)
    returns (ev: Event)
    modifies rag
    ensures Step(rag.bucketName, fetch, Classify(line), old(rag.chunks), rag.chunks, ev)
    ensures Replied(rag.modelID, invoke, Classify(line), old(rag.chunks), ev)
  {
    match Classify(line) {
      case Blank => ev := Skipped;
      case Quit => ev := Goodbye;
      case Status => ev := StatusReport(|rag.chunks|);
      case LoadUsage => ev := LoadUsageHint;
      case Load(key) =>
        var err := rag.ProcessS3Document(key, fetch);
        ev := LoadReport(err);
      case Unknown(name) => ev := UnknownCommand(name);
      case Question(q) =>
        if |rag.chunks| == 0 {
          ev := LoadFirst;
        } else {
          var answer, sent := rag.Query(q, invoke);
          ev := Answered(answer);
        }
    }
  }

  /** Handles input line i: a step of the i-th command. */
  method HandleNext(rag: RAGSystem, inputs: seq<string>, i: nat,
                    fetch: (string, string) -> Download,
                    invoke: (string, ModelRequest) -> Invocation)
    returns (ev: Event)
    requires i < |inputs|
    modifies rag
    ensures Step(rag.bucketName, fetch, Commands(inputs)[i], old(rag.chunks), rag.chunks, ev)
    ensures Replied(rag.modelID, invoke, Commands(inputs)[i], old(rag.chunks), ev)
  {
    ev := HandleLine(rag, inputs[i], fetch, invoke);
    CommandAt(inputs, i);
  }

  /** A session so far: the trace of its commands, with no goodbye before
      the last event. */
  ghost predicate SessionSoFar(bucket: string, fetch: (string, string) -> Download,
                          cmds: seq<Command>, states: seq<seq<string>>, events: seq<Event>)
  {
    Trace(bucket, fetch, cmds, states, events) && NoEarlyGoodbye(events)
  }

  /** Only the last event, if any, may be a goodbye. */
  ghost predicate NoEarlyGoodbye(events: seq<Event>) {
    forall k :: 0 <= k < |events| - 1 ==> events[k] != Goodbye
  }

  /** An event after a non-goodbye keeps goodbye last. */
  lemma NoEarlyGoodbyeExtend(events: seq<Event>, ev: Event)
    requires NoEarlyGoodbye(events)
    requires events != [] ==> events[|events| - 1] != Goodbye
    ensures NoEarlyGoodbye(events + [ev])
  {
    var events' := events + [ev];
    forall k | 0 <= k < |events'| - 1 ensures events'[k] != Goodbye {
      assert events'[k] == events[k];
    }
  }

  /** Handling the next command of a session that has not said goodbye
      extends it. */
  lemma SessionExtend(bucket: string, fetch: (string, string) -> Download,
                      cmds: seq<Command>, states: seq<seq<string>>, events: seq<Event>,
                      after: seq<string>, ev: Event)
    requires SessionSoFar(bucket, fetch, cmds, states, events)
    requires |events| < |cmds| && (events != [] ==> events[|events| - 1] != Goodbye)
    requires Step(bucket, fetch, cmds[|events|], states[|events|], after, ev)
    ensures SessionSoFar(bucket, fetch, cmds, states + [after], events + [ev])
  {
    TraceExtend(bucket, fetch, cmds, states, events, after, ev);
    NoEarlyGoodbyeExtend(events, ev);
  }

  /** Every question answered in the first |events| lines got the model's
      reply to the request Query builds from the document of that moment. */
  ghost predicate AllReplied(modelID: string, invoke: (string, ModelRequest) -> Invocation,
                             cmds: seq<Command>, states: seq<seq<string>>, events: seq<Event>)
    requires |states| == |events| + 1 && |events| <= |cmds|
  {
    forall k :: 0 <= k < |events| ==> Replied(modelID, invoke, cmds[k], states[k], events[k])
  }

  /** One more replied line extends the replies of a session. */
  lemma AllRepliedExtend(modelID: string, invoke: (string, ModelRequest) -> Invocation,
                         cmds: seq<Command>, states: seq<seq<string>>, events: seq<Event>,
                         after: seq<string>, ev: Event)
    requires |states| == |events| + 1 && |events| < |cmds|
    requires AllReplied(modelID, invoke, cmds, states, events)
    requires Replied(modelID, invoke, cmds[|events|], states[|events|], ev)
    ensures AllReplied(modelID, invoke, cmds, states + [after], events + [ev])
  {
    var n := |events|;
    var states', events' := states + [after], events + [ev];
    forall k | 0 <= k <= n
      ensures Replied(modelID, invoke, cmds[k], states'[k], events'[k])
    {
      if k < n {
        assert states'[k] == states[k] && events'[k] == events[k];
      } else {
        assert states'[k] == states[n] && events'[k] == ev;
      }
    }
  }

  /** Every answer given in a session is the model's reply to a prompt that
      holds the question of that line and a chunk of the document loaded
      when it was asked. */
  lemma SessionAnswerGrounded(bucket: string, fetch: (string, string) -> Download,
                              modelID: string, invoke: (string, ModelRequest) -> Invocation,
                              cmds: seq<Command>, states: seq<seq<string>>, events: seq<Event>, k: nat)
    requires Trace(bucket, fetch, cmds, states, events)
    requires AllReplied(modelID, invoke, cmds, states, events)
    requires k < |events| && events[k].Answered?
    ensures cmds[k].Question? && states[k] != []
    ensures exists request :: GroundedRequest(states[k], cmds[k].text, request) &&
                              events[k].answer == Reply(invoke(modelID, request))
  {
    AnswerGrounded(bucket, fetch, modelID, invoke, cmds[k], states[k], states[k + 1], events[k]);
  }

  /** runInteractiveMode over the lines `inputs`: handles them in order and
      stops after the first /quit or at the end of the input.  `states[k]`
      is the document before line k is handled. */
  method RunInteractiveMode(rag: RAGSystem, inputs: seq<string>,
                            fetch: (string, string) -> Download,
                            invoke: (string, ModelRequest) -> Invocation)
    returns (events: seq<Event>, ghost states: seq<seq<string>>)
    modifies rag
    ensures SessionSoFar(rag.bucketName, fetch, Commands(inputs), states, events)
    ensures AllReplied(rag.modelID, invoke, Commands(inputs), states, events)
    ensures states[0] == old(rag.chunks) && states[|events|] == rag.chunks
    ensures |events| < |inputs| ==> events != [] && events[|events| - 1] == Goodbye
  {
    ghost var cmds := Commands(inputs);
    events := [];
    states := [rag.chunks];
    var quit := false;
    while |events| < |inputs| && !quit
      invariant SessionSoFar(rag.bucketName, fetch, cmds, states, events)
      invariant AllReplied(rag.modelID, invoke, cmds, states, events)
      invariant states[0] == old(rag.chunks) && states[|events|] == rag.chunks
      invariant quit <==> events != [] && events[|events| - 1] == Goodbye
      decreases |inputs| - |events|
    {
      var ev := HandleNext(rag, inputs, |events|, fetch, invoke);
      SessionExtend(rag.bucketName, fetch, cmds, states, events, rag.chunks, ev);
      AllRepliedExtend(rag.modelID, invoke, cmds, states, events, rag.chunks, ev);
      events := events + [ev];
      states := states + [rag.chunks];
      quit := ev == Goodbye;
    }
  }
}
