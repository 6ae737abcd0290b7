/** The RAGSystem object of 03/main.go: the chunks of the loaded document and
    the three operations on them (load a document from the object store,
    select the chunks relevant to a question, ask the model).  The object
    store and the model service are oracles passed in as functions. */
module Rag {
  import opened GoStrings
  import opened Chunking
  import opened Ranking
  import opened Prompt

  datatype Option<T> = None | Some(value: T)

  /** The errors the operations return, one per failure point of the source. */
  datatype Error =
    | NoDocument                       // Query before any document was loaded
    | DownloadFailed(cause: string)    // GetObject failed
    | ReadFailed(cause: string)        // reading the object's body failed
    | InvokeFailed(cause: string)      // InvokeModel failed
    | BadResponse(cause: string)       // the response body is not the expected JSON

  datatype Result<T> = Ok(value: T) | Err(error: Error)

  /** What the object store yields for (bucket, key). */
  datatype Download =
    | Content(text: string)
    | GetObjectError(getCause: string)
    | ReadAllError(readCause: string)

  /** The request body sent to the model (the temperature, a float, is not
      modelled). */
  datatype ModelRequest = ModelRequest(prompt: string, maxTokensToSample: nat, stopSequences: seq<string>)

  /** What the model service yields for (model id, request). */
  datatype Invocation =
    | Completion(completion: string)
    | InvokeError(invokeCause: string)
    | UnmarshalError(unmarshalCause: string)

  /** Chunk size used when a document is loaded. */
  const ChunkSize: int := 1000
  /** Number of chunks Query asks for. */
  const QueryChunks: int := 3
  const MaxTokensToSample: nat := 500
  const HumanStop: string := "\n\nHuman:"

  /** The chunks after loading: replaced on success, untouched on failure. */
  function AfterLoad(chunks: seq<string>, d: Download): (after: seq<string>) {
    if d.Content? then ChunkText(d.text, ChunkSize) else chunks
  }

  /** The error a load returns. */
  function LoadError(d: Download): Option<Error> {
    match d
    case Content(_) => None
    case GetObjectError(m) => Some(DownloadFailed(m))
    case ReadAllError(m) => Some(ReadFailed(m))
  }

  /** A load succeeds exactly when the download does; a successful load
      always leaves a document (at least one chunk), a failed one leaves the
      previous chunks in place. */
  lemma LoadOutcome(chunks: seq<string>, d: Download)
    ensures LoadError(d) == None <==> d.Content?
    ensures d.Content? ==> AfterLoad(chunks, d) != []
    ensures !d.Content? ==> AfterLoad(chunks, d) == chunks
  {
    if d.Content? {
      ChunkTextStructure(d.text, ChunkSize);
    }
  }

  /** Query's answer for what the model service returned. */
  function Reply(inv: Invocation): Result<string> {
    match inv
    case Completion(t) => Ok(t)
    case InvokeError(m) => Err(InvokeFailed(m))
    case UnmarshalError(m) => Err(BadResponse(m))
  }

  /** The request Query sends for the prompt built from `relevant`. */
  function RequestFor(relevant: seq<string>, question: string): ModelRequest {
    ModelRequest(BuildPrompt(relevant, question), MaxTokensToSample, [HumanStop])
  }

  /** `request` is what Query sends for `question` when the document is
      `chunks`: the prompt holds the selection of up to three chunks. */
  ghost predicate IsQueryRequest(chunks: seq<string>, question: string, request: ModelRequest) {
    exists relevant: seq<string>, order: seq<int> ::
      IsSelection(chunks, question, QueryChunks, relevant, order) &&
      request == RequestFor(relevant, question)
  }

  /** With a document loaded, the prompt Query sends always holds at least
      one chunk of the document and the question itself, asks for at most
      500 tokens and stops at the next human turn. */
  lemma QueryRequestGrounded(chunks: seq<string>, question: string, request: ModelRequest)
    requires chunks != [] && IsQueryRequest(chunks, question, request)
    ensures exists i :: 0 <= i < |chunks| && Contains(request.prompt, chunks[i])
    ensures Contains(request.prompt, question)
    ensures HasPrefix(request.prompt, Header) && HasSuffix(request.prompt, AssistantCue)
    ensures request.maxTokensToSample == 500 && request.stopSequences == ["\n\nHuman:"]
  {
    var relevant, order :| IsSelection(chunks, question, QueryChunks, relevant, order) &&
      request == RequestFor(relevant, question);
    SelectionNonEmpty(chunks, question, QueryChunks, relevant, order);
    SelectionBounds(chunks, question, QueryChunks, relevant, order);
    PromptContainsChunksAndQuestion(relevant, question, 0);
    assert relevant[0] in chunks;
    var i :| 0 <= i < |chunks| && chunks[i] == relevant[0];
    assert Contains(request.prompt, chunks[i]);
  }

  class RAGSystem {
    const bucketName: string
    const modelID: string
    /** The chunks of the loaded document; empty until a load succeeds. */
    var chunks: seq<string>

    constructor (bucketName: string, modelID: string)
      ensures this.bucketName == bucketName && this.modelID == modelID
      ensures chunks == []
    {
      this.bucketName := bucketName;
      this.modelID := modelID;
      chunks := [];
    }

    /** splitIntoChunks: trims each line, flushes the accumulator when the
        next line would take it past chunkSize and it is not empty, and
        trims every flushed chunk. */
    method SplitIntoChunks(text: string, chunkSize: int) returns (result: seq<string>)
      ensures result == ChunkText(text, chunkSize)
      ensures |result| >= 1
    {
      var raw := Split(text, '\n');
      ghost var lines := Lines(text);
      ghost var target := Groups(text, chunkSize);
      result := [];
      var current: string := [];
      ghost var cur: seq<string> := [];
      ghost var groups: seq<seq<string>> := [];
      var i := 0;
      while i < |raw|
        invariant 0 <= i <= |raw| == |lines|
        invariant current == JoinLines(cur)
        invariant result == Render(groups)
        invariant groups + Pack(lines[i..], cur, chunkSize) == target
      {
        var line := TrimSpace(raw[i]);
        assert line == lines[i];
        PackStep(lines, i, cur, chunkSize, groups, target);
        if |current| + |line| > chunkSize && |current| > 0 {
          result := result + [TrimSpace(current)];
          RenderSnoc(groups, cur);
          groups := groups + [cur];
          current := [];
          cur := [];
        }
        JoinLinesSnoc(cur, line);
        current := current + line + "\n";
        cur := cur + [line];
        i := i + 1;
      }
      PackEnd(lines, cur, chunkSize, groups, target);
      if |current| > 0 {
        result := result + [TrimSpace(current)];
        RenderSnoc(groups, cur);
        groups := groups + [cur];
      }
      ChunkTextStructure(text, chunkSize);
    }

    /** findRelevantChunks: scores every chunk, sorts the scores with a
        stable bubble sort, keeps the positive entries among the first
        maxChunks and falls back to the first chunks when none is kept. */
    method FindRelevantChunks(question: string, maxChunks: int)
      returns (relevant: seq<string>, ghost order: seq<int>)
      requires chunks != [] ==> 0 <= maxChunks
      ensures IsSelection(chunks, question, maxChunks, relevant, order)
      ensures |relevant| <= |chunks| && |relevant| <= Max(maxChunks, 0)
      ensures forall x :: x in relevant ==> x in chunks
    {
      var words := Fields(ToLower(question));
      var scores := ScoreChunks(words);
      order := BubbleSortByScore(scores);
      relevant := PickPositive(scores, maxChunks);
      if |relevant| == 0 && |chunks| > 0 {
        var limit := maxChunks;
        if |chunks| < limit {
          limit := |chunks|;
        }
        relevant := chunks[..limit];
      }
      SelectionBounds(chunks, question, maxChunks, relevant, order);
    }

    /** The scoring loop of findRelevantChunks: each chunk, lower-cased, gets
        the number of occurrences of every keyword of the question. */
    method ScoreChunks(words: seq<string>) returns (scores: array<ChunkScore>)
      ensures fresh(scores)
      ensures scores[..] == Scored(chunks, words)
    {
      scores := new ChunkScore[|chunks|];
      var c := 0;
      while c < |chunks|
        invariant 0 <= c <= |chunks| == scores.Length
        invariant forall k :: 0 <= k < c ==> scores[k] == Scored(chunks, words)[k]
      {
        var score := ScoreChunk(ToLower(chunks[c]), words);
        scores[c] := ChunkScore(chunks[c], score);
        c := c + 1;
      }
    }

    /** The loop over the question's words for one chunk. */
    static method ScoreChunk(chunkLower: string, words: seq<string>) returns (score: int)
      ensures score == Score(chunkLower, words)
    {
      score := 0;
      var w := 0;
      while w < |words|
        invariant 0 <= w <= |words|
        invariant score == Score(chunkLower, words[..w])
      {
        var word := words[w];
        assert words[..w + 1][..w] == words[..w];
        if IsKeyword(word) {
          score := score + Count(chunkLower, word);
        }
        w := w + 1;
      }
      assert words[..w] == words;
    }

    /** The selection loop of findRelevantChunks: the chunks with a positive
        score among the first maxChunks ranked entries, in ranking order. */
    static method PickPositive(scores: array<ChunkScore>, maxChunks: int) returns (relevant: seq<string>)
      ensures relevant == PositiveChunks(scores[..Min(scores.Length, Max(maxChunks, 0))])
    {
      var n := scores.Length;
      relevant := [];
      var i := 0;
      while i < n && i < maxChunks
        invariant 0 <= i <= n && i <= Max(maxChunks, 0)
        invariant relevant == PositiveChunks(scores[..i])
      {
        assert scores[..i + 1][..i] == scores[..i];
        if scores[i].score > 0 {
          relevant := relevant + [scores[i].chunk];
        }
        i := i + 1;
      }
      assert i == Min(n, Max(maxChunks, 0));
    }

    /** Query: refuses to run without a document; otherwise sends the prompt
        built from the three most relevant chunks and returns the model's
        completion or the failure of the call. */
    method Query(question: string, invoke: (string, ModelRequest) -> Invocation)
      returns (answer: Result<string>, sent: Option<ModelRequest>)
      ensures chunks == [] ==> answer == Err(NoDocument) && sent == None
      ensures chunks != [] ==> sent.Some? && IsQueryRequest(chunks, question, sent.value) &&
                               answer == Reply(invoke(modelID, sent.value))
    {
      if |chunks| == 0 {
        return Err(NoDocument), None;
      }
      var relevant, order := FindRelevantChunks(question, QueryChunks);
      var request := ModelRequest(BuildPrompt(relevant, question), MaxTokensToSample, [HumanStop]);
      assert IsSelection(chunks, question, QueryChunks, relevant, order) &&
             request == RequestFor(relevant, question);
      var response := invoke(modelID, request);
      match response {
        case Completion(t) => answer := Ok(t);
        case InvokeError(m) => answer := Err(InvokeFailed(m));
        case UnmarshalError(m) => answer := Err(BadResponse(m));
      }
      sent := Some(request);
    }

    /** ProcessS3Document: downloads the object `key` of the configured
        bucket and, when both the download and the read succeed, replaces
        the chunks with those of its content. */
    method ProcessS3Document(key: string, fetch: (string, string) -> Download)
      returns (err: Option<Error>)
      modifies this
      ensures chunks == AfterLoad(old(chunks), fetch(bucketName, key))
      ensures err == LoadError(fetch(bucketName, key))
    {
      var download := fetch(bucketName, key);
      match download
      case GetObjectError(m) =>
        err := Some(DownloadFailed(m));
      case ReadAllError(m) =>
        err := Some(ReadFailed(m));
      case Content(content) =>
        chunks := SplitIntoChunks(content, ChunkSize);
        err := None;
    }
  }
}
