/** The chatbot's business logic (`src/services/chatbot_service.py`): a
    preliminary analysis of the message, the prompt built from it, and a
    canned reply chosen by an ordered keyword test. */
module ChatbotService {
  import opened Text

  /** The dictionary `prerouting` returns. */
  datatype Analysis = Analysis(length: nat, wordCount: nat, hasQuestion: bool)

  /** `prerouting(message)`: `len(message)`, `len(message.split())` and
      `"?" in message`. */
  function Prerouting(message: string): (a: Analysis)
    ensures a.length == |message|
    ensures a.hasQuestion <==> '?' in message
    ensures a.wordCount <= a.length
    ensures a.wordCount == 0 <==> AllSpace(message)
  {
    WordCountBounds(message);
    Analysis(|message|, |Words(message)|, '?' in message)
  }

  /** Python's `str(True)` and `str(False)`. */
  function BoolText(b: bool): string {
    if b then "True" else "False"
  }

  /** `str()` of the analysis dictionary, keys in insertion order: a
      brace-delimited text that opens with the `'length'` key. */
  function AnalysisText(a: Analysis): (t: string)
    ensures |t| > 11 && t[..11] == "{'length': " && t[|t| - 1] == '}'
  {
    "{'length': " + (NatToString(a.length)
      + (", 'word_count': " + (NatToString(a.wordCount)
      + (", 'has_question': " + (BoolText(a.hasQuestion) + "}")))))
  }

  /** `generate_prompt(prerouting_result, message)`: the prompt opens with the
      message, verbatim, and closes with the analysis dictionary. */
  function GeneratePrompt(a: Analysis, message: string): (p: string)
    ensures |p| > 11 + |message|
    ensures p[..11 + |message|] == "User says: " + message
    ensures p[|p| - 1] == '}'
  {
    var head := "User says: " + message;
    var p := head + (". Analysis: " + AnalysisText(a));
    assert p[..|head|] == head;
    p
  }

  lemma PrefixCancel(p: string, x: string, y: string)
    requires p + x == p + y
    ensures x == y
  {
    assert x == (p + x)[|p|..];
    assert y == (p + y)[|p|..];
  }

  lemma ConcatAt(s: string, r: string, i: nat)
    ensures i < |s| ==> (s + r)[i] == s[i]
    ensures i == |s| && r != [] ==> (s + r)[i] == r[0]
  {
  }

  /** Decimal digits followed by a non-digit: the digits are recovered. */
  lemma DigitsPrefix(x: nat, y: nat, r1: string, r2: string)
    requires r1 != [] && r2 != [] && !('0' <= r1[0] <= '9') && !('0' <= r2[0] <= '9')
    requires NatToString(x) + r1 == NatToString(y) + r2
    ensures x == y && r1 == r2
  {
    var s1, s2 := NatToString(x), NatToString(y);
    var t := s1 + r1;
    ConcatAt(s1, r1, |s2|);
    ConcatAt(s2, r2, |s1|);
    assert |s1| == |s2|;
    assert s1 == t[..|s1|];
    assert s2 == t[..|s2|];
    NatToStringInjective(x, y);
    assert r1 == t[|s1|..];
  }

  /** The analysis can be read back from its text. */
  lemma AnalysisTextInjective(a: Analysis, b: Analysis)
    requires AnalysisText(a) == AnalysisText(b)
    ensures a == b
  {
    var u1 := ", 'has_question': " + (BoolText(a.hasQuestion) + "}");
    var u2 := ", 'has_question': " + (BoolText(b.hasQuestion) + "}");
    var r1 := ", 'word_count': " + (NatToString(a.wordCount) + u1);
    var r2 := ", 'word_count': " + (NatToString(b.wordCount) + u2);
    PrefixCancel("{'length': ", NatToString(a.length) + r1, NatToString(b.length) + r2);
    DigitsPrefix(a.length, b.length, r1, r2);
    PrefixCancel(", 'word_count': ", NatToString(a.wordCount) + u1, NatToString(b.wordCount) + u2);
    DigitsPrefix(a.wordCount, b.wordCount, u1, u2);
    PrefixCancel(", 'has_question': ", BoolText(a.hasQuestion) + "}", BoolText(b.hasQuestion) + "}");
  }

  /** For a given message, the prompt determines the analysis it reports. */
  lemma PromptDeterminesAnalysis(a: Analysis, b: Analysis, message: string)
    requires GeneratePrompt(a, message) == GeneratePrompt(b, message)
    ensures a == b
  {
    PrefixCancel("User says: ", message + (". Analysis: " + AnalysisText(a)), message + (". Analysis: " + AnalysisText(b)));
    PrefixCancel(message, ". Analysis: " + AnalysisText(a), ". Analysis: " + AnalysisText(b));
    PrefixCancel(". Analysis: ", AnalysisText(a), AnalysisText(b));
    AnalysisTextInjective(a, b);
  }

  // ---------------------------------------------------------------------
  // process_message
  // ---------------------------------------------------------------------

  const Greeting: string := "Hello! How can I help you today?"
  const WellBeing: string := "I'm doing great, thank you for asking! How are you?"
  const Farewell: string := "Goodbye! Have a great day!"

  function QuestionReply(message: string): string {
    "Interesting question about '" + message + "'. Let me help you think about that."
  }

  function DefaultReply(message: string): string {
    "I received your message: '" + message + "'. Is there something specific I can help you with?"
  }

  predicate IsGreeting(lower: string) {
    Contains(lower, "hello") || Contains(lower, "hi") || Contains(lower, "hola")
  }

  predicate IsWellBeing(lower: string) {
    Contains(lower, "how are you") || Contains(lower, "como estas")
  }

  predicate IsFarewell(lower: string) {
    Contains(lower, "bye") || Contains(lower, "goodbye") || Contains(lower, "adios")
  }

  /** `process_message(message)`: always one of the five templates, and
      never empty. */
  function Reply(message: string): (r: string)
    ensures r in {Greeting, WellBeing, Farewell, QuestionReply(message), DefaultReply(message)}
    ensures r != ""
  {
    var lower := Lower(message);
    if IsGreeting(lower) then Greeting
    else if IsWellBeing(lower) then WellBeing
    else if IsFarewell(lower) then Farewell
    else if '?' in message then QuestionReply(message)
    else DefaultReply(message)
  }

  lemma FixedReplyLengths()
    ensures |Greeting| == 32 && |WellBeing| == 51 && |Farewell| == 26
  {
  }

  lemma QuotedReplyLengths(m: string)
    ensures |QuestionReply(m)| == 64 + |m|
    ensures |DefaultReply(m)| == 77 + |m|
  {
  }

  lemma QuotedRepliesDiffer(m1: string, m2: string)
    ensures QuestionReply(m1) != DefaultReply(m2)
  {
    QuotedReplyLengths(m1);
    QuotedReplyLengths(m2);
    assert QuestionReply(m1)[2] == 't' && DefaultReply(m2)[2] == 'r';
  }

  /** The five replies differ pairwise, whatever the messages embedded. */
  lemma RepliesDistinct(m1: string, m2: string)
    ensures Greeting != WellBeing && Greeting != Farewell && WellBeing != Farewell
    ensures QuestionReply(m1) !in {Greeting, WellBeing, Farewell}
    ensures DefaultReply(m1) !in {Greeting, WellBeing, Farewell}
    ensures QuestionReply(m1) != DefaultReply(m2)
  {
    FixedReplyLengths();
    QuotedReplyLengths(m1);
    QuotedRepliesDiffer(m1, m2);
  }

  /** The cascade in its priority order, as an equivalence per reply: each
      keyword group wins exactly when it matches the lowered message and no
      earlier group does, and the `?` test reads the original message. */
  lemma ReplyCascade(message: string)
    ensures var lower := Lower(message);
      (Reply(message) == Greeting <==> IsGreeting(lower)) &&
      (Reply(message) == WellBeing <==> !IsGreeting(lower) && IsWellBeing(lower)) &&
      (Reply(message) == Farewell <==> !IsGreeting(lower) && !IsWellBeing(lower) && IsFarewell(lower)) &&
      (Reply(message) == QuestionReply(message) <==>
        !IsGreeting(lower) && !IsWellBeing(lower) && !IsFarewell(lower) && '?' in message) &&
      (Reply(message) == DefaultReply(message) <==>
        !IsGreeting(lower) && !IsWellBeing(lower) && !IsFarewell(lower) && '?' !in message)
  {
    RepliesDistinct(message, message);
  }

  /** The question and default replies quote the message verbatim. */
  lemma ReplyQuotesMessage(message: string)
    ensures Reply(message) == QuestionReply(message) ==> OccursAt(Reply(message), message, 28)
    ensures Reply(message) == DefaultReply(message) ==> OccursAt(Reply(message), message, 26)
  {
    var q := "Interesting question about '";
    var d := "I received your message: '";
    assert |q| == 28 && |d| == 26;
    assert QuestionReply(message)[28..28 + |message|] == message by {
      assert QuestionReply(message) == q + message + "'. Let me help you think about that.";
    }
    assert DefaultReply(message)[26..26 + |message|] == message by {
      assert DefaultReply(message) == d + message + "'. Is there something specific I can help you with?";
    }
  }

  /** Keyword replies depend only on the lowered message: messages that
      differ only in the case of ASCII letters get the same keyword reply. */
  lemma ReplyIgnoresCase(m1: string, m2: string)
    requires Lower(m1) == Lower(m2)
    requires Reply(m1) in {Greeting, WellBeing, Farewell}
    ensures Reply(m2) == Reply(m1)
  {
    RepliesDistinct(m1, m1);
  }

  /** `"goodbye"` contains `"bye"`, so the `"goodbye"` test never decides. */
  lemma GoodbyeIsBye(lower: string)
    ensures Contains(lower, "goodbye") ==> Contains(lower, "bye")
  {
    if Contains(lower, "goodbye") {
      var i :| OccursAt(lower, "goodbye", i);
      assert lower[i + 4..i + 7] == lower[i..i + 7][4..];
      assert OccursAt(lower, "bye", i + 4);
    }
  }

  /** `"hi"` is matched as a substring: `"this?"` gets the greeting, not the
      question reply. */
  lemma ThisIsGreeting()
    ensures Reply("this?") == Greeting
  {
    var lower := Lower("this?");
    assert lower == "this?";
    assert lower[1..][..2] == "hi";
  }
}
