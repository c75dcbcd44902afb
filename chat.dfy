/**
  The conversation protocol of `sendChatMessage`: how a chat request is put
  together (system message with the document and the numbered questions,
  then the history, then the new user message) and how the history is
  bounded to the 20 most recent entries, ten user/assistant exchanges.
 */
module Chat {
  import opened Strings
  import opened Completion
  import opened Questions

  /** Entries of history kept (`chatHistory.slice(-20)`). */
  const MaxHistory: nat := 20

  // ---------- Context assembly ----------

  const SystemPromptHead: string := "You are a helpful reading assistant for Danny. You ONLY answer questions based on the following document content. If the question cannot be answered from the document, politely say so and do NOT use outside knowledge.\n\nDocument content:\n\"\"\"\n"
  const SystemPromptTail: string := "\n\"\"\""

  /** The system message: the answering rules, the document between triple
      quotes, then the question block when there are questions. */
  function SystemContent(text: string, qs: seq<QAItem>): string
  {
    SystemPromptHead + text + SystemPromptTail + QuestionsContext(qs)
  }

  /** The request for one turn: exactly the system message, then the history
      as it stood before the turn, then the new user message; 1024 tokens. */
  function ChatRequest(text: string, qs: seq<QAItem>, history: seq<Message>, userText: string): (r: Request)
    ensures r.maxTokens == ChatMaxTokens
    ensures |r.messages| == |history| + 2
    ensures r.messages[0] == Message(System, SystemContent(text, qs))
    ensures r.messages[1..|r.messages| - 1] == history
    ensures r.messages[|r.messages| - 1] == Message(User, userText)
  {
    Request([Message(System, SystemContent(text, qs))] + history + [Message(User, userText)], ChatMaxTokens)
  }

  /** The system message quotes the extracted text whole, right after the
      answering rules; without questions nothing follows the closing quotes. */
  lemma SystemContentCarriesDocument(text: string, qs: seq<QAItem>)
    ensures var sc := SystemContent(text, qs);
      var p := |SystemPromptHead|;
      && p + |text| <= |sc|
      && sc[p..p + |text|] == text
      && (qs == [] <==> |sc| == p + |text| + |SystemPromptTail|)
  {
    var sc := SystemContent(text, qs);
    assert sc[|SystemPromptHead|..|SystemPromptHead| + |text|] == text;
  }

  /** With questions present, the system message is a text ending in a
      newline (the rules, the quoted document and the instructions about
      numbered questions) followed by the question list, so that, by
      `ListedBehind`, question i stands in it as "Q<i+1>: <question>" on a
      line of its own and "explain question 5" can be resolved against it. */
  lemma SystemContentEndsWithList(text: string, qs: seq<QAItem>)
    requires qs != []
    ensures var prefix := SystemPromptHead + text + SystemPromptTail + QuestionsPreamble;
      && SystemContent(text, qs) == prefix + QuestionList(qs)
      && prefix[|prefix| - 1] == '\n'
  {
    var document := SystemPromptHead + text + SystemPromptTail;
    AppendAssociates(document, QuestionsPreamble, QuestionList(qs));
    PreambleEndsLine();
    assert (document + QuestionsPreamble)[|document + QuestionsPreamble| - 1]
      == QuestionsPreamble[|QuestionsPreamble| - 1];
  }

  /** Behind any text that ends in a newline, the question list shows
      question i as "Q<i+1>: <question>" on a line of its own: preceded by a
      newline and followed by a newline or the end. */
  lemma ListedBehind(prefix: string, qs: seq<QAItem>, i: nat)
    requires prefix != [] && prefix[|prefix| - 1] == '\n'
    requires i < |qs|
    ensures var sc := prefix + QuestionList(qs);
      var p := |prefix| + LineStart(QuestionLines(qs), i);
      var q := p + |QuestionLine(i, qs[i])|;
      && 0 < p <= q <= |sc|
      && sc[p..q] == QuestionLine(i, qs[i])
      && sc[p - 1] == '\n'
      && (q == |sc| || sc[q] == '\n')
  {
    JoinedLineAfterPrefix(prefix, QuestionLines(qs), i);
  }

  // ---------- Bounded history ----------

  /** Recording one exchange: the user entry and the assistant entry are
      appended, then only the last 20 entries are kept. The history grows by
      the exchange, and the oldest entries beyond 20 are dropped with the
      rest kept in order. */
  function RecordTurn(history: seq<Message>, userText: string, response: string): (r: seq<Message>)
    ensures |r| == Min(|history| + 2, MaxHistory)
    ensures r[|r| - 2] == Message(User, userText) && r[|r| - 1] == Message(Assistant, response)
    ensures forall k :: 0 <= k < |r| - 2 ==> r[k] == history[|history| - (|r| - 2) + k]
  {
    var full := history + [Message(User, userText), Message(Assistant, response)];
    if |full| > MaxHistory then full[|full| - MaxHistory..] else full
  }

  /** User and assistant entries alternate, starting with a user entry. */
  predicate Alternates(history: seq<Message>)
  {
    forall k :: 0 <= k < |history| ==> history[k].role == (if k % 2 == 0 then User else Assistant)
  }

  /** The shape the history keeps: at most 20 entries, whole exchanges only,
      each a user entry followed by an assistant entry. */
  predicate WellFormedHistory(history: seq<Message>)
  {
    |history| <= MaxHistory && |history| % 2 == 0 && Alternates(history)
  }

  /** Recording an exchange keeps the history well formed. */
  lemma RecordTurnKeepsWellFormed(history: seq<Message>, userText: string, response: string)
    requires WellFormedHistory(history)
    ensures WellFormedHistory(RecordTurn(history, userText, response))
  {
    var r := RecordTurn(history, userText, response);
    var drop := |history| + 2 - |r|;
    assert drop == 0 || drop == 2;
    forall k | 0 <= k < |r|
      ensures r[k].role == (if k % 2 == 0 then User else Assistant)
    {
      if k < |r| - 2 {
        assert r[k] == history[k + drop];
        assert (k + drop) % 2 == k % 2;
      }
    }
  }

  /** The history after a run of successful exchanges (user text, response),
      starting from `history`. */
  function Replay(history: seq<Message>, turns: seq<(string, string)>): seq<Message>
  {
    if turns == [] then history
    else
      var last := turns[|turns| - 1];
      RecordTurn(Replay(history, turns[..|turns| - 1]), last.0, last.1)
  }

  /** All entries the exchanges produce, oldest first. */
  function Exchanges(turns: seq<(string, string)>): (r: seq<Message>)
    ensures |r| == 2 * |turns|
    ensures forall i :: 0 <= i < |turns| ==>
      r[2 * i] == Message(User, turns[i].0) && r[2 * i + 1] == Message(Assistant, turns[i].1)
  {
    if turns == [] then []
    else
      var last := turns[|turns| - 1];
      Exchanges(turns[..|turns| - 1]) + [Message(User, last.0), Message(Assistant, last.1)]
  }

  /** The last n entries of s (all of s when it is shorter). */
  function Latest(s: seq<Message>, n: nat): (r: seq<Message>)
    ensures |r| == Min(|s|, n)
    ensures r == s[|s| - |r|..]
  {
    if |s| <= n then s else s[|s| - n..]
  }

  /** However many exchanges have happened since the history was emptied, it
      is well formed. */
  lemma {:induction false} ReplayWellFormed(history: seq<Message>, turns: seq<(string, string)>)
    requires WellFormedHistory(history)
    ensures WellFormedHistory(Replay(history, turns))
  {
    if turns != [] {
      ReplayWellFormed(history, turns[..|turns| - 1]);
      var last := turns[|turns| - 1];
      RecordTurnKeepsWellFormed(Replay(history, turns[..|turns| - 1]), last.0, last.1);
    }
  }

  /** Starting from an empty history, the history is exactly the 20 most
      recent entries of all exchanges, in their original order. */
  lemma {:induction false} ReplayKeepsLatest(turns: seq<(string, string)>)
    ensures Replay([], turns) == Latest(Exchanges(turns), MaxHistory)
  {
    if turns != [] {
      var init := turns[..|turns| - 1];
      var last := turns[|turns| - 1];
      ReplayKeepsLatest(init);
      var pair := [Message(User, last.0), Message(Assistant, last.1)];
      LatestAppend(Exchanges(init), pair, MaxHistory);
    }
  }

  /** Keeping the latest n, appending a short tail and keeping the latest n
      again is the same as appending first. */
  lemma LatestAppend(s: seq<Message>, tail: seq<Message>, n: nat)
    requires |tail| <= n
    ensures Latest(Latest(s, n) + tail, n) == Latest(s + tail, n)
  {
    var a := Latest(s, n) + tail;
    var b := s + tail;
    var ra := Latest(a, n);
    var rb := Latest(b, n);
    assert |ra| == |rb|;
    forall k | 0 <= k < |ra|
      ensures ra[k] == rb[k]
    {
      assert ra[k] == a[|a| - |ra| + k];
      assert rb[k] == b[|b| - |rb| + k];
      if |a| - |ra| + k >= |Latest(s, n)| {
        assert a[|a| - |ra| + k] == tail[|a| - |ra| + k - |Latest(s, n)|];
        assert b[|b| - |rb| + k] == tail[|b| - |rb| + k - |s|];
      } else {
        assert a[|a| - |ra| + k] == Latest(s, n)[|a| - |ra| + k];
      }
    }
  }
}
