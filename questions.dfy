/**
  Question generation (`generateQuestions`): the generation prompt, and how
  the completion's free text becomes the question set — strip markdown code
  fences, trim and parse; failing that, parse the span from the first `[` to
  the last `]`; keep at most the first 40 items. It also builds the numbered
  question list that chat requests quote back to the model.

  JSON parsing is not modelled: the parser is a parameter, a total function
  from text to the value it denotes (an array of question/answer items or
  some other value), or `None` when the text is not JSON at all.
 */
module Questions {
  import opened Strings
  import opened Completion

  /** One generated exam question and its answer. */
  datatype QAItem = QAItem(question: string, answer: string)

  /** What `JSON.parse` yields for text that is JSON: an array of
      question/answer items, or any other value. */
  datatype JsonValue = ItemArray(items: seq<QAItem>) | OtherValue

  /** `JSON.parse`: the value a text denotes, or `None` when the text is not
      JSON and the parser throws. */
  type Parser = string -> Option<JsonValue>

  /** Items kept from one generation (`parsed.slice(0, 40)`). */
  const MaxQuestions: nat := 40

  // ---------- The generation prompt ----------

  const GenerationPromptHead: string := "You are a professional exam setter and subject-matter expert. Your task is to generate 40 high-quality, exam-ready questions from the document below.\n\nSTRICT RULES:\n1. IGNORE all introductory sections, prefaces, forewords, table of contents, acknowledgements, and any \"how to use this book\" or instruction pages. Focus ONLY on the substantive subject content.\n2. Questions must test DEEP understanding of the core concepts, theories, principles, definitions, processes, and applications covered in the main body of the document.\n3. Use a variety of exam-style question types:\n   - Definition questions (\"Define...\", \"What is meant by...\")\n   - Explanation questions (\"Explain...\", \"Describe how...\")\n   - Application questions (\"How would...\", \"Give an example of...\")\n   - Analysis/evaluation questions (\"Why is...\", \"What are the implications of...\", \"Compare and contrast...\")\n   - Cause-and-effect questions (\"What causes...\", \"What are the effects of...\")\n4. Do NOT ask trivial questions about page numbers, authors, or document structure.\n5. Every answer MUST be based strictly and directly on the content of the document \U{2014} do not use outside knowledge.\n6. Each answer must be DETAILED and COMPREHENSIVE \U{2014} not just a one-liner. Structure each answer with:\n   - A clear direct answer to the question\n   - Supporting explanation using specific details, examples, or evidence from the document\n   - Any relevant sub-points, causes, effects, or implications mentioned in the document\n   Aim for 4\U{2013}8 sentences per answer, or more if the concept warrants it.\n\nReturn ONLY a valid JSON array of exactly 40 objects, each with:\n- \"question\": the exam-style question\n- \"answer\": the answer derived strictly from the document\n\nDocument Content:\n\"\"\"\n"
  const GenerationPromptTail: string := "\n\"\"\"\n\nIMPORTANT: Return ONLY the raw JSON array. No markdown, no code fences, no explanation. Start immediately with [ and end with ]."

  /** The single user message that asks for 40 questions about `text`. */
  function GenerationPrompt(text: string): string
  {
    GenerationPromptHead + text + GenerationPromptTail
  }

  /** The request that generation sends: one user message, 8192 tokens. */
  function GenerationRequest(text: string): (r: Request)
    ensures r.maxTokens == GenerationMaxTokens
    ensures |r.messages| == 1 && r.messages[0] == Message(User, GenerationPrompt(text))
  {
    Request([Message(User, GenerationPrompt(text))], GenerationMaxTokens)
  }

  /** The document block of a generation prompt: what stands between the fixed
      instructions and the fixed closing request. */
  function DocumentBlock(prompt: string): string
  {
    if |prompt| >= |GenerationPromptHead| + |GenerationPromptTail|
    then prompt[|GenerationPromptHead|..|prompt| - |GenerationPromptTail|]
    else ""
  }

  /** The prompt carries the extracted text whole and unaltered. */
  lemma GenerationPromptCarriesText(text: string)
    ensures DocumentBlock(GenerationPrompt(text)) == text
  {
    var p := GenerationPrompt(text);
    assert p[|GenerationPromptHead|..|p| - |GenerationPromptTail|] == text;
  }

  // ---------- Code fences ----------

  function LowerAscii(c: char): char
  {
    if 'A' <= c <= 'Z' then (c as int + 32) as char else c
  }

  /** Three backticks start at position k of s. */
  predicate FenceAt(s: string, k: nat)
    requires k + 3 <= |s|
  {
    s[k] == '`' && s[k + 1] == '`' && s[k + 2] == '`'
  }

  predicate StartsWithFence(s: string)
  {
    |s| >= 3 && FenceAt(s, 0)
  }

  /** "```json" in any letter case starts s. */
  predicate StartsWithJsonFence(s: string)
  {
    && StartsWithFence(s) && |s| >= 7
    && LowerAscii(s[3]) == 'j' && LowerAscii(s[4]) == 's'
    && LowerAscii(s[5]) == 'o' && LowerAscii(s[6]) == 'n'
  }

  predicate NoFence(s: string)
  {
    forall k :: 0 <= k && k + 3 <= |s| ==> !FenceAt(s, k)
  }

  predicate NoBacktick(s: string)
  {
    forall k :: 0 <= k < |s| ==> s[k] != '`'
  }

  /** `s.replace(/```json|```/gi, '')`: scanning left to right, every
      case-insensitive "```json", else every "```", is removed. */
  function StripFences(s: string): string
    decreases |s|
  {
    if StartsWithJsonFence(s) then StripFences(s[7..])
    else if StartsWithFence(s) then StripFences(s[3..])
    else if s == [] then []
    else [s[0]] + StripFences(s[1..])
  }

  /** A string that does not start with a fence keeps its first character. */
  lemma StripFencesHead(s: string)
    requires s != [] && !StartsWithFence(s)
    ensures StripFences(s) == [s[0]] + StripFences(s[1..])
  {
  }

  /** After stripping no three backticks are left together: the removal
      cannot create a new fence out of leftovers. */
  lemma {:induction false} StripFencesNoFence(s: string)
    ensures NoFence(StripFences(s))
    decreases |s|
  {
    if StartsWithJsonFence(s) {
      StripFencesNoFence(s[7..]);
    } else if StartsWithFence(s) {
      StripFencesNoFence(s[3..]);
    } else if s != [] {
      var rest := StripFences(s[1..]);
      StripFencesNoFence(s[1..]);
      var out := [s[0]] + rest;
      assert out == StripFences(s);
      forall k | 0 <= k && k + 3 <= |out|
        ensures !FenceAt(out, k)
      {
        if k > 0 {
          assert !FenceAt(rest, k - 1);
        } else if s[0] == '`' {
          NoLeadingFencePair(s);
        }
      }
    }
  }

  /** When s starts with a backtick but not with a fence, the first three
      characters of its stripped form are not all backticks. */
  lemma NoLeadingFencePair(s: string)
    requires s != [] && s[0] == '`' && !StartsWithFence(s)
    ensures var out := StripFences(s);
      |out| < 3 || !FenceAt(out, 0)
  {
    var t := s[1..];
    if t != [] && t[0] != '`' {
      StripFencesHead(t);
    } else if t != [] {
      StripFencesHead(t);
      var u := t[1..];
      if u != [] {
        assert u[0] != '`';
        StripFencesHead(u);
      }
    }
  }

  /** Text without a fence is left unchanged. */
  lemma {:induction false} StripFencesIdentity(s: string)
    requires NoFence(s)
    ensures StripFences(s) == s
  {
    if s != [] {
      assert !StartsWithFence(s);
      assert NoFence(s[1..]) by {
        forall k | 0 <= k && k + 3 <= |s[1..]|
          ensures !FenceAt(s[1..], k)
        {
          assert !FenceAt(s, k + 1);
        }
      }
      StripFencesIdentity(s[1..]);
    }
  }

  /** Stripping fences twice is stripping them once. */
  lemma StripFencesIdempotent(s: string)
    ensures StripFences(StripFences(s)) == StripFences(s)
  {
    StripFencesNoFence(s);
    StripFencesIdentity(StripFences(s));
  }

  /** Text without backticks passes through and stripping resumes after it. */
  lemma {:induction false} StripFencesPlain(y: string, t: string)
    requires NoBacktick(y)
    ensures StripFences(y + t) == y + StripFences(t)
  {
    if y != [] {
      assert (y + t)[1..] == y[1..] + t;
      StripFencesPlain(y[1..], t);
    } else {
      assert y + t == t;
    }
  }

  /** The text sent to the parser first: fences removed, then trimmed. */
  function Cleaned(response: string): string
  {
    Trim(StripFences(response))
  }

  /** A payload wrapped in a "```json" fence comes out of cleaning exactly as
      it was. */
  lemma FencedPayloadCleaned(x: string)
    requires NoBacktick(x)
    requires x != [] && !IsSpace(x[0]) && !IsSpace(x[|x| - 1])
    ensures Cleaned("```json\n" + x + "\n```") == x
  {
    var y := "\n" + x + "\n";
    StripJsonFence(y);
    assert "```json\n" + x + "\n```" == "```json" + y + "```";
    assert IsBlank("\n");
    TrimPadded("\n", x, "\n");
  }

  /** A "```json" opening fence and a "```" closing fence around text without
      backticks are both removed. */
  lemma StripJsonFence(y: string)
    requires NoBacktick(y)
    ensures StripFences("```json" + y + "```") == y
  {
    var w := "```json" + y + "```";
    assert w[..7] == "```json";
    assert StartsWithJsonFence(w);
    assert w[7..] == y + "```";
    StripFencesPlain(y, "```");
    assert StripFences("```") == StripFences("");
    assert y + [] == y;
  }

  // ---------- The bracket fallback ----------

  function FirstIndexOf(s: string, c: char): (r: Option<nat>)
    ensures r.Some? ==> (r.value < |s| && s[r.value] == c
      && forall k :: 0 <= k < r.value ==> s[k] != c)
    ensures r.None? ==> forall k :: 0 <= k < |s| ==> s[k] != c
  {
    if s == [] then None
    else if s[0] == c then Some(0)
    else match FirstIndexOf(s[1..], c)
      case Some(i) => Some(i + 1)
      case None => None
  }

  function LastIndexOf(s: string, c: char): (r: Option<nat>)
    ensures r.Some? ==> (r.value < |s| && s[r.value] == c
      && forall k :: r.value < k < |s| ==> s[k] != c)
    ensures r.None? ==> forall k :: 0 <= k < |s| ==> s[k] != c
  {
    if s == [] then None
    else if s[|s| - 1] == c then Some(|s| - 1)
    else LastIndexOf(s[..|s| - 1], c)
  }

  /** `response.match(/\[[\s\S]*\]/)`: the span from the first `[` to the
      last `]`, when the first `[` comes before the last `]`. */
  function BracketSpan(s: string): Option<string>
  {
    var first := FirstIndexOf(s, '[');
    var last := LastIndexOf(s, ']');
    if first.Some? && last.Some? && first.value < last.value
    then Some(s[first.value..last.value + 1])
    else None
  }

  /** The regular expression's meaning: a match exists exactly when some `[`
      precedes some `]`, and it is the longest such span, starting at the
      first `[` and ending at the last `]`. */
  lemma BracketSpanIsLongestMatch(s: string)
    ensures BracketSpan(s).Some? <==> exists i, j :: 0 <= i < j < |s| && s[i] == '[' && s[j] == ']'
    ensures BracketSpan(s).Some? ==> exists i, j ::
      && 0 <= i < j < |s| && BracketSpan(s).value == s[i..j + 1]
      && s[i] == '[' && s[j] == ']'
      && (forall k :: 0 <= k < i ==> s[k] != '[')
      && (forall k :: j < k < |s| ==> s[k] != ']')
  {
  }

  // ---------- Parsing and acceptance ----------

  /** The value parsed from a response: the cleaned text's value if the
      cleaned text is JSON at all, otherwise the bracketed span's value if
      there is a span and it is JSON. */
  function ParseResponse(response: string, parse: Parser): Option<JsonValue>
  {
    match parse(Cleaned(response))
    case Some(value) => Some(value)
    case None =>
      match BracketSpan(response)
      case Some(span) => parse(span)
      case None => None
  }

  /** `parsed.slice(0, 40)`: on an array of n items, the first min(40, n) of
      them, in order; nothing when no text parsed or the value parsed is not
      an array. */
  function CapQuestions(parsed: Option<JsonValue>): (r: Option<seq<QAItem>>)
    ensures r.Some? <==> parsed.Some? && parsed.value.ItemArray?
    ensures r.Some? ==>
      && |r.value| == Min(|parsed.value.items|, MaxQuestions)
      && r.value == parsed.value.items[..|r.value|]
  {
    match parsed
    case Some(ItemArray(items)) => Some(Prefix(items, MaxQuestions))
    case _ => None
  }

  /** The question set a response yields. */
  function AcceptQuestions(response: string, parse: Parser): Option<seq<QAItem>>
  {
    CapQuestions(ParseResponse(response, parse))
  }

  /** Once the cleaned text is JSON, the fallback is never consulted: a
      value that is not an array fails the generation even when a bracketed
      span elsewhere in the response would parse. */
  lemma CleanedParseDecides(response: string, parse: Parser)
    requires parse(Cleaned(response)).Some?
    ensures AcceptQuestions(response, parse) == CapQuestions(parse(Cleaned(response)))
    ensures parse(Cleaned(response)).value.OtherValue? ==> AcceptQuestions(response, parse).None?
  {
  }

  /** A response that is a fenced JSON array is accepted as that array, capped
      at 40 items. */
  lemma FencedResponseAccepted(x: string, parse: Parser)
    requires NoBacktick(x)
    requires x != [] && !IsSpace(x[0]) && !IsSpace(x[|x| - 1])
    requires parse(x).Some? && parse(x).value.ItemArray?
    ensures AcceptQuestions("```json\n" + x + "\n```", parse) == Some(Prefix(parse(x).value.items, MaxQuestions))
  {
    FencedPayloadCleaned(x);
  }

  /** A response whose array is wrapped in commentary without brackets is
      accepted through the fallback as that array, when the cleaned text
      does not parse. */
  lemma WrappedArrayAccepted(before: string, x: string, after: string, parse: Parser)
    requires forall k :: 0 <= k < |before| ==> before[k] != '[' && before[k] != ']'
    requires forall k :: 0 <= k < |after| ==> after[k] != '[' && after[k] != ']'
    requires |x| >= 2 && x[0] == '[' && x[|x| - 1] == ']'
    requires parse(Cleaned(before + x + after)).None?
    requires parse(x).Some? && parse(x).value.ItemArray?
    ensures AcceptQuestions(before + x + after, parse) == Some(Prefix(parse(x).value.items, MaxQuestions))
  {
    WrappedBracketSpan(before, x, after);
  }

  /** The fallback finds exactly the bracketed array inside commentary that
      has no brackets of its own. */
  lemma WrappedBracketSpan(before: string, x: string, after: string)
    requires forall k :: 0 <= k < |before| ==> before[k] != '[' && before[k] != ']'
    requires forall k :: 0 <= k < |after| ==> after[k] != '[' && after[k] != ']'
    requires |x| >= 2 && x[0] == '[' && x[|x| - 1] == ']'
    ensures BracketSpan(before + x + after) == Some(x)
  {
    var s := before + x + after;
    var i := |before|;
    var j := |before| + |x| - 1;
    assert s[i] == '[' && s[j] == ']';
    assert forall k :: 0 <= k < i ==> s[k] == before[k];
    assert forall k :: j < k < |s| ==> s[k] == after[k - j - 1];
    var first := FirstIndexOf(s, '[');
    var last := LastIndexOf(s, ']');
    assert first.Some? && first.value == i;
    assert last.Some? && last.value == j;
    assert s[i..j + 1] == x;
  }

  // ---------- The numbered list quoted in chat ----------

  /** `Q<i+1>: <question>` for the item at index i. */
  function QuestionLine(i: nat, item: QAItem): string
  {
    "Q" + NatToString(i + 1) + ": " + item.question
  }

  function QuestionLines(qs: seq<QAItem>): (r: seq<string>)
    ensures |r| == |qs|
    ensures forall i :: 0 <= i < |qs| ==> r[i] == QuestionLine(i, qs[i])
  {
    seq(|qs|, i requires 0 <= i < |qs| => QuestionLine(i, qs[i]))
  }

  /** The question lines joined by newlines. */
  function QuestionList(qs: seq<QAItem>): string
  {
    Join(QuestionLines(qs), "\n")
  }

  const QuestionsPreamble: string := "\n\nThe following 40 exam questions have been generated from this document. If Danny refers to a question by number (e.g. \"explain question 5\", \"elaborate on Q3\", \"what does question 12 mean\"), identify the correct question from this list and give a thorough, detailed explanation based strictly on the document content:\n\n"

  /** The instructions end with a blank line, so the list starts on a line
      of its own. */
  lemma PreambleEndsLine()
    ensures QuestionsPreamble != [] && QuestionsPreamble[|QuestionsPreamble| - 1] == '\n'
  {
  }

  /** The block appended to the chat system message: empty when there are no
      questions, otherwise the instructions followed by the list. */
  function QuestionsContext(qs: seq<QAItem>): (r: string)
    ensures r == "" <==> qs == []
  {
    if |qs| > 0 then QuestionsPreamble + QuestionList(qs) else ""
  }

  /** A question line names its question by its 1-based number in decimal. */
  lemma QuestionLineNumbered(i: nat, item: QAItem)
    ensures exists digits ::
      && QuestionLine(i, item) == "Q" + digits + ": " + item.question
      && digits != [] && (forall k :: 0 <= k < |digits| ==> '0' <= digits[k] <= '9')
      && DecimalValue(digits) == i + 1
  {
    NatToStringRoundTrip(i + 1);
  }

  /** Line i of the list is question i's line, standing on a line of its
      own. */
  lemma QuestionListedAt(qs: seq<QAItem>, i: nat)
    requires i < |qs|
    ensures var list := QuestionList(qs);
      var p := LineStart(QuestionLines(qs), i);
      var q := p + |QuestionLine(i, qs[i])|;
      && q <= |list|
      && list[p..q] == QuestionLine(i, qs[i])
      && (p == 0 || list[p - 1] == '\n')
      && (q == |list| || list[q] == '\n')
  {
    JoinLineAt(QuestionLines(qs), i);
  }
}
