/**
  The reading session: the state the page keeps between events — the text
  extracted from the loaded document, the current question set and the
  chat history — and the three operations that change it: loading a
  document, generating questions and sending a chat message.

  The completion service's reply and the JSON parser are parameters of the
  operations that use them; each operation returns the request it sent, so
  that what went over the wire is part of its contract.
 */
module Reader {
  import opened Strings
  import opened Completion
  import opened Extraction
  import opened Questions
  import opened Chat

  /** How a chat turn ended. */
  datatype TurnOutcome =
    | EmptyInput                                  // blank input: nothing sent
    | NoDocument                                  // no extracted text yet: nothing sent
    | Answered(request: Request, response: string)
    | Failed(request: Request, error: string)     // the completion call threw

  /** How a question generation ended. */
  datatype GenerationOutcome =
    | NoText                                      // no extracted text: nothing sent
    | Generated(request: Request, count: nat)
    | CompletionFailed(request: Request, error: string)
    | Unparseable(request: Request)               // no text parsed, or the value is not an array

  class Session {
    var extractedText: string
    var questionsData: seq<QAItem>
    var chatHistory: seq<Message>

    /** What every operation keeps: bounded text, at most 40 questions, and a
        history of at most 10 whole user/assistant exchanges. */
    ghost predicate Valid()
      reads this
    {
      && |extractedText| <= MaxChars
      && |questionsData| <= MaxQuestions
      && WellFormedHistory(chatHistory)
    }

    /** The page starts with no document, no questions and no history. */
    constructor ()
      ensures Valid()
      ensures extractedText == "" && questionsData == [] && chatHistory == []
    {
      extractedText := "";
      questionsData := [];
      chatHistory := [];
    }

    /** Loading a document replaces the extracted text and empties the chat
        history; the previous questions stay until a generation replaces
        them. */
    method LoadDocument(pages: seq<seq<string>>)
      requires Valid()
      modifies this
      ensures Valid()
      ensures extractedText == ExtractedText(pages)
      ensures chatHistory == []
      ensures questionsData == old(questionsData)
    {
      extractedText := ExtractAllText(pages);
      chatHistory := [];
    }

    /** One question generation: with text loaded, it sends the generation
        request and, when the reply parses, replaces the questions with the
        first 40 parsed items; on any failure the questions are kept. */
    method GenerateQuestions(reply: Reply, parse: Parser)
      returns (outcome: GenerationOutcome)
      requires Valid()
      modifies this`questionsData
      ensures Valid()
      ensures outcome.NoText? <==> extractedText == ""
      ensures !outcome.NoText? ==> outcome.request == GenerationRequest(extractedText)
      ensures outcome.Generated? <==>
        extractedText != "" && reply.Success? && AcceptQuestions(reply.content, parse).Some?
      ensures outcome.CompletionFailed? <==> extractedText != "" && reply.Failure?
      ensures outcome.CompletionFailed? ==> outcome.error == reply.error
      ensures questionsData ==
        if outcome.Generated? then AcceptQuestions(reply.content, parse).value else old(questionsData)
      ensures outcome.Generated? ==> outcome.count == |questionsData|
    {
      if extractedText == "" {
        return NoText;
      }
      var request := GenerationRequest(extractedText);
      match reply
      case Failure(error) =>
        outcome := CompletionFailed(request, error);
      case Success(response) =>
        var accepted := AcceptQuestions(response, parse);
        match accepted
        case None =>
          outcome := Unparseable(request);
        case Some(items) =>
          questionsData := items;
          outcome := Generated(request, |items|);
    }

    /** Appends the user entry, then the assistant entry, then cuts the
        history back to its last 20 entries when it is longer. */
    method RecordExchange(text: string, response: string)
      requires Valid()
      modifies this`chatHistory
      ensures Valid()
      ensures chatHistory == RecordTurn(old(chatHistory), text, response)
    {
      ghost var before := chatHistory;
      chatHistory := chatHistory + [Message(User, text)];
      chatHistory := chatHistory + [Message(Assistant, response)];
      if |chatHistory| > MaxHistory {
        chatHistory := chatHistory[|chatHistory| - MaxHistory..];
      }
      assert before + [Message(User, text)] + [Message(Assistant, response)]
        == before + [Message(User, text), Message(Assistant, response)];
      RecordTurnKeepsWellFormed(before, text, response);
    }

    /** One chat turn. Blank input, or input while no text is extracted, is
        refused without a request. Otherwise the request is the system message,
        the history before the turn and the trimmed input; on success the
        exchange is recorded and the history cut back to its last 20 entries,
        on failure the history is left as it was. */
    method SendChatMessage(input: string, reply: Reply) returns (outcome: TurnOutcome)
      requires Valid()
      modifies this`chatHistory
      ensures Valid()
      ensures outcome.EmptyInput? <==> Trim(input) == ""
      ensures outcome.NoDocument? <==> Trim(input) != "" && extractedText == ""
      ensures outcome.Answered? <==> Trim(input) != "" && extractedText != "" && reply.Success?
      ensures outcome.Answered? || outcome.Failed? ==>
        outcome.request == ChatRequest(extractedText, questionsData, old(chatHistory), Trim(input))
      ensures outcome.Answered? ==> outcome.response == reply.content
      ensures outcome.Failed? ==> reply.Failure? && outcome.error == reply.error
      ensures chatHistory ==
        if outcome.Answered? then RecordTurn(old(chatHistory), Trim(input), reply.content)
        else old(chatHistory)
    {
      var text := Trim(input);
      if text == "" {
        return EmptyInput;
      }
      if extractedText == "" {
        return NoDocument;
      }
      var request := ChatRequest(extractedText, questionsData, chatHistory, text);
      match reply
      case Failure(error) =>
        outcome := Failed(request, error);
      case Success(response) =>
        RecordExchange(text, response);
        outcome := Answered(request, response);
    }
  }
}
