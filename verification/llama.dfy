/** The answering orchestrator (`Backend/llama_service.py`): the greeting
    classifier, the two request shapes sent to the completion service, and
    the buffering of its reply.

    The HTTP call and the JSON decoding of each reply line are outside the
    model: the reply enters as the sequence of its decoded lines. Retrieval
    enters as a function parameter, and the request records which queries
    it was asked, so "no retrieval" and "exactly one retrieval" are
    statements about the model's output. */
module Llama {
  import opened Wrappers
  import opened Text

  /** The fixed greeting phrases, compared after `strip().lower()`. */
  const GreetingKeywords: seq<string> :=
    ["hi", "hello", "hey", "good morning", "good afternoon", "good evening", "greetings", "what's up"]

  /** The only label `classify_message` produces; every other message gets
      no label (`None`). */
  datatype Label = Greeting

  /** `classify_message`: exact, case- and surrounding-whitespace-insensitive
      match against the greeting phrases. */
  function ClassifyMessage(text: string): Option<Label> {
    if Lower(Strip(text)) in GreetingKeywords then Some(Greeting) else None
  }

  /** Every greeting phrase is non-empty and has no surrounding whitespace. */
  lemma KeywordsTight(w: string)
    requires w in GreetingKeywords
    ensures |w| > 0 && Tight(w)
  {
  }

  /** A message is a greeting exactly when it is whitespace, then a greeting
      phrase written in any mix of letter case, then whitespace. */
  lemma ClassifyIff(text: string)
    ensures ClassifyMessage(text) == Some(Greeting)
        <==> exists i, j :: 0 <= i <= j <= |text| && AllSpace(text[..i]) && AllSpace(text[j..])
                            && Lower(text[i..j]) in GreetingKeywords
  {
    StripShape(text);
    var i0 := StripOffset(text);
    var j0 := i0 + |Strip(text)|;
    if ClassifyMessage(text) == Some(Greeting) {
      assert text[i0..j0] == Strip(text);
      assert 0 <= i0 <= j0 <= |text| && AllSpace(text[..i0]) && AllSpace(text[j0..])
             && Lower(text[i0..j0]) in GreetingKeywords;
    }
    if exists i, j :: 0 <= i <= j <= |text| && AllSpace(text[..i]) && AllSpace(text[j..])
                      && Lower(text[i..j]) in GreetingKeywords {
      var i, j :| 0 <= i <= j <= |text| && AllSpace(text[..i]) && AllSpace(text[j..])
                  && Lower(text[i..j]) in GreetingKeywords;
      GreetingIsStrip(text, i, j);
    }
  }

  lemma GreetingIsStrip(text: string, i: nat, j: nat)
    requires i <= j <= |text| && AllSpace(text[..i]) && AllSpace(text[j..])
    requires Lower(text[i..j]) in GreetingKeywords
    ensures ClassifyMessage(text) == Some(Greeting)
  {
    var mid := text[i..j];
    KeywordsTight(Lower(mid));
    assert Tight(mid) by {
      LowerKeepsSpace(mid[0]);
      LowerKeepsSpace(mid[|mid| - 1]);
    }
    StripUnique(text, i, j);
  }

  /** Whitespace around a message does not change its class. */
  lemma ClassifyIgnoresPadding(text: string, left: string, right: string)
    requires AllSpace(left) && AllSpace(right)
    ensures ClassifyMessage(left + text + right) == ClassifyMessage(text)
  {
    StripPadded(text, left, right);
  }

  /** Letter case does not change a message's class. */
  lemma ClassifyIgnoresCase(text: string)
    ensures ClassifyMessage(Lower(text)) == ClassifyMessage(text)
  {
    StripLower(text);
    LowerIdempotent(Strip(text));
  }

  /** `classify_message("Hello")` is a greeting. */
  lemma ClassifyExampleHello()
    ensures ClassifyMessage("Hello") == Some(Greeting)
  {
    var greeting := "Hello";
    assert AllSpace(greeting[..0]) && AllSpace(greeting[5..]);
    assert Lower(greeting[0..5]) == "hello" by {
      assert greeting[0..5] == greeting;
    }
    assert "hello" == GreetingKeywords[1];
    GreetingIsStrip(greeting, 0, 5);
  }

  /** Mixed case still classifies as a greeting. */
  lemma ClassifyExampleMixedCase()
    ensures ClassifyMessage("HeLLo") == Some(Greeting)
  {
    var word := "HeLLo";
    assert AllSpace(word[..0]) && AllSpace(word[5..]);
    assert Lower(word[0..5]) == GreetingKeywords[1] by {
      assert word[0..5] == word;
    }
    GreetingIsStrip(word, 0, 5);
  }

  /** Padding and mixed case together still classify as a greeting. */
  lemma ClassifyExamplePadded()
    ensures ClassifyMessage("  HeLLo  ") == Some(Greeting)
  {
    var padded := "  HeLLo  ";
    var word := padded[2..7];
    assert padded == padded[..2] + word + padded[7..];
    assert AllSpace(padded[..2]) && AllSpace(padded[7..]);
    ClassifyIgnoresPadding(word, padded[..2], padded[7..]);
    ClassifyExampleMixedCase();
    assert word == "HeLLo";
  }

  /** A greeting followed by more words is not a greeting: matching is
      equality, not containment. */
  lemma ClassifyExampleLonger()
    ensures ClassifyMessage("hello there") == None
  {
    var longer := "hello there";
    assert |Strip(longer)| == 11 by {
      assert AllSpace(longer[..0]) && AllSpace(longer[11..]) && longer[0..11] == longer;
      assert Tight(longer);
      StripUnique(longer, 0, 11);
    }
    NotGreetingByLength(longer);
  }

  /** A question that opens with a greeting is not a greeting. */
  lemma ClassifyExampleQuestion()
    ensures ClassifyMessage("Hello, how do I apply?") == None
  {
    var question := "Hello, how do I apply?";
    assert |Strip(question)| == 22 by {
      assert AllSpace(question[..0]) && AllSpace(question[22..]) && question[0..22] == question;
      assert Tight(question);
      StripUnique(question, 0, 22);
    }
    NotGreetingByLength(question);
  }

  /** A message whose stripped length is not the length of any greeting
      phrase is not a greeting. */
  lemma NotGreetingByLength(text: string)
    requires |Strip(text)| !in {2, 3, 5, 9, 12, 14}
    ensures ClassifyMessage(text) == None
  {
    var w := Lower(Strip(text));
    assert forall k :: 0 <= k < |GreetingKeywords| ==> |GreetingKeywords[k]| in {2, 3, 5, 9, 12, 14};
  }

  /** The sentence the model must answer with when the context is
      insufficient; callers may pattern-match on it. */
  const Fallback := "The context does not provide enough information to answer this question."

  const SystemPromptHead :=
    "\nYou are an AI assistant designed to answer user questions using only the information explicitly provided in the context below. You must not use any external knowledge, assumptions, or generalizations.\n"
    + "\n- The context will appear after \"Context:\"\n- The question will appear after \"Question:\"\n"
    + "\nYour task is to:\n"
    + "1. Carefully read and extract only relevant information from the context. Always attach the source information provided in the context with your answer.\n"
    + "2. Directly answer the question based solely on the extracted information.\n"
    + "3. You MUST provide the source of the information with your answer.\n"
    + "4. If the context does not contain enough information to answer the question, clearly state: \""

  const SystemPromptTail :=
    "\". In that case, do not provide any information about the source and context.\n"
    + "\n\nImportant:\n"
    + "Your entire response must be grounded only in the provided context and the question. Avoid assumptions or filler statements.\n"

  /** `system_prompt`: the grounding instruction sent on the retrieval path. */
  const SystemPrompt := SystemPromptHead + Fallback + SystemPromptTail

  /** The grounding instruction carries the fallback sentence verbatim. */
  lemma SystemPromptHasFallback()
    ensures |SystemPromptHead| + |Fallback| <= |SystemPrompt|
    ensures SystemPrompt[|SystemPromptHead|..|SystemPromptHead| + |Fallback|] == Fallback
  {
    var h := SystemPromptHead;
    assert (h + Fallback + SystemPromptTail)[|h|..|h| + |Fallback|] == Fallback;
  }

  const ModelName := "llama3.2"

  const ContextHeader := "\n        Context:\n        "
  const QuestionHeader := "\n\n        Question:\n        "
  const PromptTrailer := "\n        "

  /** The user prompt of the retrieval path: the retrieved context after
      "Context:", the question after "Question:". */
  function Prompt(context: string, question: string): string {
    ContextHeader + context + QuestionHeader + question + PromptTrailer
  }

  /** The prompt can be cut back into its parts: the context sits right after
      the "Context:" header and the question right before the trailer. */
  lemma PromptFields(context: string, question: string)
    ensures var p := Prompt(context, question);
            && |p| == |ContextHeader| + |context| + |QuestionHeader| + |question| + |PromptTrailer|
            && p[..|ContextHeader|] == ContextHeader
            && p[|ContextHeader|..|ContextHeader| + |context|] == context
            && p[|ContextHeader| + |context|..|ContextHeader| + |context| + |QuestionHeader|] == QuestionHeader
            && p[|p| - |PromptTrailer| - |question|..|p| - |PromptTrailer|] == question
  {
    var p := Prompt(context, question);
    var a := ContextHeader + context;
    var b := a + QuestionHeader;
    var c := b + question;
    assert p == c + PromptTrailer;
    assert p[..|ContextHeader|] == a[..|ContextHeader|];
    assert p[|ContextHeader|..|a|] == a[|ContextHeader|..];
    assert p[|a|..|b|] == b[|a|..];
    assert p[|b|..|c|] == c[|b|..];
  }

  datatype Role = System | User

  datatype ChatMessage = ChatMessage(role: Role, content: string)

  /** The JSON body posted to the completion service. */
  datatype Payload = Payload(model: string, messages: seq<ChatMessage>)

  /** The payload together with the queries retrieval was asked while
      building it. */
  datatype Request = Request(payload: Payload, retrievalQueries: seq<string>)

  /** The request-building half of `get_llama_response`. */
  function BuildRequest(message: string, retrieve: string -> string): (req: Request)
    ensures req.payload.model == ModelName
    ensures ClassifyMessage(message) == Some(Greeting) ==>
              && req.retrievalQueries == []
              && req.payload.messages == [ChatMessage(User, message)]
    ensures ClassifyMessage(message) == None ==>
              && req.retrievalQueries == [message]
              && |req.payload.messages| == 2
              && req.payload.messages[0] == ChatMessage(System, SystemPrompt)
              && req.payload.messages[1] == ChatMessage(User, Prompt(retrieve(message), message))
  {
    if ClassifyMessage(message) == Some(Greeting) then
      Request(Payload(ModelName, [ChatMessage(User, message)]), [])
    else
      var relevantChunks := retrieve(message);
      Request(Payload(ModelName, [ChatMessage(System, SystemPrompt),
                                  ChatMessage(User, Prompt(relevantChunks, message))]),
              [message])
  }

  /** Only the retrieval path sends the grounding instruction, and it always
      sends it first; the greeting path sends the message untouched. */
  lemma SystemPromptOnlyWhenRetrieving(message: string, retrieve: string -> string)
    ensures var req := BuildRequest(message, retrieve);
            && (|req.retrievalQueries| == 0 <==> ClassifyMessage(message).Some?)
            && (|req.retrievalQueries| == 0 <==> forall k :: 0 <= k < |req.payload.messages| ==> req.payload.messages[k].role != System)
            && (|req.retrievalQueries| == 0 ==> req.payload.messages == [ChatMessage(User, message)])
  {
  }

  /** The `message` object of a decoded reply line, if it has one. */
  datatype ReplyMessage = ReplyMessage(content: Option<string>)

  /** One decoded reply line; `None` in the reply stands for an empty line. */
  datatype ReplyRecord = ReplyRecord(message: Option<ReplyMessage>)

  /** What one reply line adds to the answer: its `message.content` when the
      line is non-empty and has both keys, nothing otherwise. */
  function Contribution(line: Option<ReplyRecord>): string {
    match line
    case Some(ReplyRecord(Some(ReplyMessage(Some(content))))) => content
    case _ => ""
  }

  /** The answer accumulated from the first lines of the reply. */
  function Buffered(reply: seq<Option<ReplyRecord>>): string {
    if |reply| == 0 then "" else Buffered(reply[..|reply| - 1]) + Contribution(reply[|reply| - 1])
  }

  predicate HasContent(line: Option<ReplyRecord>) {
    line.Some? && line.value.message.Some? && line.value.message.value.content.Some?
  }

  /** The `message.content` values of the lines that carry one, in order. */
  function Contents(reply: seq<Option<ReplyRecord>>): (cs: seq<string>)
    ensures |cs| <= |reply|
  {
    if |reply| == 0 then []
    else if HasContent(reply[|reply| - 1]) then
      Contents(reply[..|reply| - 1]) + [reply[|reply| - 1].value.message.value.content.value]
    else Contents(reply[..|reply| - 1])
  }

  /** The buffering loop of `get_llama_response`. */
  method BufferResponse(reply: seq<Option<ReplyRecord>>) returns (fullResponse: string)
    ensures fullResponse == Concat(Contents(reply))
  {
    fullResponse := "";
    var i := 0;
    while i < |reply|
      invariant 0 <= i <= |reply|
      invariant fullResponse == Buffered(reply[..i])
    {
      var line := reply[i];
      if line.Some? {
        var data := line.value;
        if data.message.Some? && data.message.value.content.Some? {
          fullResponse := fullResponse + data.message.value.content.value;
        }
      }
      assert reply[..i + 1][..i] == reply[..i];
      i := i + 1;
    }
    assert reply[..i] == reply;
    BufferedIsConcat(reply);
  }

  /** Buffering keeps exactly the contents of the lines that have one, in
      order, and nothing else. */
  lemma {:induction false} BufferedIsConcat(reply: seq<Option<ReplyRecord>>)
    ensures Buffered(reply) == Concat(Contents(reply))
    decreases |reply|
  {
    if |reply| > 0 {
      var init := reply[..|reply| - 1];
      BufferedIsConcat(init);
      if HasContent(reply[|reply| - 1]) {
        var c := reply[|reply| - 1].value.message.value.content.value;
        var cs := Contents(init);
        assert (cs + [c])[..|cs|] == cs;
      }
    }
  }

  /** The reply is buffered piecewise: the answer to a reply received in two
      parts is the two answers joined. */
  lemma {:induction false} BufferedAppend(a: seq<Option<ReplyRecord>>, b: seq<Option<ReplyRecord>>)
    ensures Buffered(a + b) == Buffered(a) + Buffered(b)
    decreases |b|
  {
    if |b| == 0 {
      assert a + b == a;
    } else {
      var b' := b[..|b| - 1];
      assert (a + b)[..|a + b| - 1] == a + b';
      BufferedAppend(a, b');
    }
  }

  /** `get_llama_response`: build the request for the user's message, post
      it, and return the buffered answer. The reply to the post is the
      `reply` parameter. */
  method GetLlamaResponse(message: string, retrieve: string -> string, reply: seq<Option<ReplyRecord>>)
    returns (request: Request, fullResponse: string)
    ensures request.payload.model == ModelName
    ensures ClassifyMessage(message) == Some(Greeting) ==>
              && request.retrievalQueries == []
              && request.payload.messages == [ChatMessage(User, message)]
    ensures ClassifyMessage(message) == None ==>
              && request.retrievalQueries == [message]
              && request.payload.messages
                 == [ChatMessage(System, SystemPrompt), ChatMessage(User, Prompt(retrieve(message), message))]
    ensures fullResponse == Concat(Contents(reply))
  {
    request := BuildRequest(message, retrieve);
    fullResponse := BufferResponse(reply);
  }
}
