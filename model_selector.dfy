/** Chooses between the paid primary chat model and an optional local Ollama
    model, by the length of the question and, for the cost-saving variant,
    by whether it looks like a greeting or a thank-you. */
module ModelSelector {
  import opened Wrappers
  import opened Strings

  datatype Model = Primary | Ollama

  /** The text reported when the model's first result carries no text. */
  const NoResponse: string := "응답 없음"

  /** selectModel: short questions go to Ollama when it is configured; the
      length is Kotlin's, in UTF-16 code units. */
  function SelectModel(question: string, ollamaPresent: bool): (m: Model)
    ensures m == Ollama <==> ollamaPresent && Utf16Length(question) < 50
    ensures !ollamaPresent ==> m == Primary
  {
    if Utf16Length(question) < 50 && ollamaPresent then Ollama else Primary
  }

  /** For text without characters above 0xFFFF the length is the number of
      characters. */
  lemma SelectModelOnBasicPlane(question: string, ollamaPresent: bool)
    requires forall i :: 0 <= i < |question| ==> question[i] as int < 0x1_0000
    ensures SelectModel(question, ollamaPresent) == Ollama <==> ollamaPresent && |question| < 50
  {
    Utf16LengthBounds(question);
  }

  /** Twenty-five emoji are twenty-five characters but fifty code units, so
      the question is not short. */
  lemma EmojiQuestionNotShort(ollamaPresent: bool)
    ensures var q := seq(25, _ => '\U{1F600}');
            |q| < 50 && SelectModel(q, ollamaPresent) == Primary
  {
    var q := seq(25, _ => '\U{1F600}');
    Utf16LengthBounds(q);
  }

  /** The name smartChat reports for the chosen model. */
  function SmartModelName(m: Model): string {
    if m == Ollama then "Ollama" else "Primary (OpenAI)"
  }

  /** What smartChat returns: the model's name, the reply and the question's
      length. */
  datatype SmartReply = SmartReply(selectedModel: string, message: string, questionLength: nat)

  /** smartChat, with the chosen model's reply to the message given as call. */
  function SmartChat(message: string, ollamaPresent: bool, call: (Model, string) -> Option<string>): (r: SmartReply)
    ensures r.questionLength == Utf16Length(message)
    ensures r.selectedModel == "Ollama" <==> ollamaPresent && Utf16Length(message) < 50
    ensures r.message == call(SelectModel(message, ollamaPresent), message).GetOr(NoResponse)
  {
    var model := SelectModel(message, ollamaPresent);
    SmartReply(SmartModelName(model), call(model, message).GetOr(NoResponse), Utf16Length(message))
  }

  /** The words that mark a message as small talk, matched anywhere. */
  const SmallTalk: seq<string> := ["안녕", "hi", "hello", "thanks", "감사"]

  /** The lower-cased message contains one of the small-talk words. */
  predicate MentionsSmallTalk(message: string) {
    exists w :: w in SmallTalk && Contains(Lower(message), w)
  }

  /** The condition under which the cost-saving variant uses Ollama. */
  predicate UseOllamaForCost(message: string, ollamaPresent: bool) {
    Utf16Length(message) < 30 && MentionsSmallTalk(message) && ollamaPresent
  }

  datatype CostReply = CostReply(selectedModel: string, message: string, costOptimized: bool)

  /** costOptimizedChat: the reported flag is exactly the choice of Ollama. */
  function CostOptimizedChat(message: string, ollamaPresent: bool, call: (Model, string) -> Option<string>): (r: CostReply)
    ensures r.costOptimized <==> Utf16Length(message) < 30 && MentionsSmallTalk(message) && ollamaPresent
    ensures r.selectedModel == (if r.costOptimized then "Ollama (free)" else "Primary (paid)")
    ensures r.message == call(if r.costOptimized then Ollama else Primary, message).GetOr(NoResponse)
  {
    var useOllama := UseOllamaForCost(message, ollamaPresent);
    var model := if useOllama then Ollama else Primary;
    CostReply(if useOllama then "Ollama (free)" else "Primary (paid)",
              call(model, message).GetOr(NoResponse), useOllama)
  }

  /** A small-talk word written literally in the message is found: all five
      words are already lower case, so lower-casing the message keeps them. */
  lemma SmallTalkMatches(message: string, w: string)
    requires w in SmallTalk && Contains(message, w)
    ensures MentionsSmallTalk(message)
  {
    var k :| 0 <= k <= |message| && OccursAt(message, w, k);
    var l := Lower(message);
    assert Lower(w) == w;
    forall j | 0 <= j < |w| ensures l[k + j] == w[j] {
      assert message[k + j] == w[j];
    }
    assert l[k..k + |w|] == w;
    assert OccursAt(l, w, k);
  }

  /** Every message the cost rule sends to Ollama would also go to Ollama
      under selectModel, since 30 is below 50. */
  lemma CostRuleWithinSelect(message: string, ollamaPresent: bool)
    requires UseOllamaForCost(message, ollamaPresent)
    ensures SelectModel(message, ollamaPresent) == Ollama
  {
  }

  /** A short greeting goes to Ollama when it is there, and to the primary
      model otherwise; the same text in upper case is treated the same. */
  lemma GreetingUsesOllama(ollamaPresent: bool, call: (Model, string) -> Option<string>)
    ensures CostOptimizedChat("hello", ollamaPresent, call).costOptimized == ollamaPresent
    ensures CostOptimizedChat("HELLO", ollamaPresent, call).costOptimized == ollamaPresent
  {
    assert OccursAt("hello", "hello", 0);
    SmallTalkMatches("hello", "hello");
    assert Lower("HELLO") == "hello";
    assert Contains(Lower("HELLO"), "hello");
  }
}
