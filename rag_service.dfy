/** Retrieval-augmented answering over a wiki: the retrieved documents are
    numbered into a context, the context and the question fill a prompt for
    the chat model, and the answer comes back with the distinct sources.
    The vector store's search and the chat model are given: the documents
    as a sequence, the model as a function from prompt to answer. */
module RagService {
  import opened Wrappers
  import opened Strings

  /** A metadata value: a string, or some other object with its toString. */
  datatype MetaValue = Text(value: string) | NonText(rendered: string)

  datatype RetrievedDocument = RetrievedDocument(content: string, metadata: map<string, MetaValue>)

  datatype ChatResponse = ChatResponse(question: string, answer: string, sources: seq<string>)

  const NoDocumentsAnswer: string := "관련 문서를 찾을 수 없습니다. 문서를 먼저 인제스트해주세요."

  /** Shown in the context for a document without a "source" entry. */
  const UnknownSource: string := "알 수 없음"

  /** The margin of both raw string literals, and that of the prompt's
      closing quotes. */
  const Margin: string := "            "
  const PromptClose: string := "        "

  /** The source as interpolated into the context. */
  function Label(doc: RetrievedDocument): string {
    if "source" !in doc.metadata then UnknownSource
    else match doc.metadata["source"]
      case Text(v) => v
      case NonText(r) => r
  }

  /** The source as collected for the response: only string values count. */
  function SourceText(doc: RetrievedDocument): Option<string> {
    if "source" in doc.metadata && doc.metadata["source"].Text? then Some(doc.metadata["source"].value) else None
  }

  function Header(n: nat, source: string): string {
    "[문서 " + NatToString(n) + ": " + source + "]"
  }

  /** The context block of the document at a position, numbered from 1. */
  function Block(index: nat, doc: RetrievedDocument): string {
    Header(index + 1, Label(doc)) + "\n" + doc.content
  }

  /** The block literal as written: trimIndent applied after the header and
      the content have been interpolated. */
  function BlockAsWritten(index: nat, doc: RetrievedDocument): string {
    TrimIndent(Join(["", Margin + Header(index + 1, Label(doc)), Margin + doc.content, Margin], "\n"))
  }

  /** The blocks as the source builds them, one per document in order. */
  function Blocks(docs: seq<RetrievedDocument>): (r: seq<string>)
    ensures |r| == |docs| && forall i :: 0 <= i < |docs| ==> r[i] == BlockAsWritten(i, docs[i])
  {
    seq(|docs|, i requires 0 <= i < |docs| => BlockAsWritten(i, docs[i]))
  }

  /** The context sent: the blocks joined with a blank line between them. */
  function Context(docs: seq<RetrievedDocument>): string {
    Join(Blocks(docs), "\n\n")
  }

  /** The blocks as intended, each starting with its header at column 0. */
  function IntendedBlocks(docs: seq<RetrievedDocument>): (r: seq<string>)
    ensures |r| == |docs| && forall i :: 0 <= i < |docs| ==> r[i] == Block(i, docs[i])
  {
    seq(|docs|, i requires 0 <= i < |docs| => Block(i, docs[i]))
  }

  function IntendedContext(docs: seq<RetrievedDocument>): string {
    Join(IntendedBlocks(docs), "\n\n")
  }

  /** Every source and every content is a single line. */
  predicate SingleLineDocuments(docs: seq<RetrievedDocument>) {
    forall i :: 0 <= i < |docs| ==> '\n' !in Label(docs[i]) && '\n' !in docs[i].content
  }

  /** For single-line documents the context sent is the intended one. */
  lemma ContextAgreesOnSingleLines(docs: seq<RetrievedDocument>)
    requires SingleLineDocuments(docs)
    ensures Blocks(docs) == IntendedBlocks(docs)
    ensures Context(docs) == IntendedContext(docs)
  {
    forall i | 0 <= i < |docs| ensures Blocks(docs)[i] == IntendedBlocks(docs)[i] {
      BlockAgreesOnSingleLine(i, docs[i]);
    }
  }

  /** mapNotNull { source as? String }.distinct(). */
  function Sources(docs: seq<RetrievedDocument>): (r: seq<string>)
    ensures NoDuplicates(r)
  {
    Distinct(MapNotNull(docs, SourceText))
  }

  const Intro: string := "당신은 사내 위키 전문가입니다."
  const Instruction: string := "다음 참고 문서들을 바탕으로 질문에 정확하게 답변해주세요."
  const ReferenceHeading: string := "[참고 문서]"
  const QuestionHeading: string := "[질문]"
  const RulesHeading: string := "[답변 규칙]"
  const Rule1: string := "1. 참고 문서의 내용만을 기반으로 답변하세요"
  const Rule2Lead: string := "2. 문서에 없는 내용은 "
  const Rule2Quote: string := "\"제공된 문서에서 해당 정보를 찾을 수 없습니다\""
  const Rule2Tail: string := "라고 답변하세요"
  const Rule3: string := "3. 답변 시 어느 문서를 참고했는지 명시하세요"
  const Rule4: string := "4. 간결하고 명확하게 답변하세요"
  const Rule5: string := "5. 불확실한 경우 명시적으로 표현하세요"
  const AnswerRules: seq<string> := [Rule1, Rule2Lead + Rule2Quote + Rule2Tail, Rule3, Rule4, Rule5]

  /** The prompt line by line, with the values in place. */
  function PromptBody(question: string, context: string): seq<string> {
    [Intro, Instruction, "", ReferenceHeading, context, "", QuestionHeading, question, "", RulesHeading] + AnswerRules
  }

  /** createPromptText as intended: the lines without the literal's margin. */
  function Prompt(question: string, context: string): string {
    Join(PromptBody(question, context), "\n")
  }

  /** createPromptText as written: trimIndent applied to the literal after
      interpolation. */
  function PromptAsWritten(question: string, context: string): string {
    TrimIndent(Join([""] + MapSeq(PromptBody(question, context), l => Margin + l) + [PromptClose], "\n"))
  }

  /** askQuestion on the retrieved documents: the fixed answer and no
      sources when nothing was retrieved, whatever the model would say;
      otherwise the model's answer to the prompt as the source builds it and
      the distinct sources. */
  function AskQuestion(question: string, docs: seq<RetrievedDocument>, call: string -> string): (r: ChatResponse)
    ensures r.question == question
    ensures docs == [] ==> r.answer == NoDocumentsAnswer && r.sources == []
    ensures docs != [] ==> r.answer == call(PromptAsWritten(question, Context(docs))) && r.sources == Sources(docs)
  {
    if docs == [] then ChatResponse(question, NoDocumentsAnswer, [])
    else
      var context := Context(docs);
      ChatResponse(question, call(PromptAsWritten(question, context)), Sources(docs))
  }

  /** A source is reported exactly when some retrieved document carries it
      as a string. */
  lemma SourcesExact(docs: seq<RetrievedDocument>, x: string)
    ensures x in Sources(docs) <==> exists i :: 0 <= i < |docs| && SourceText(docs[i]) == Some(x)
  {
    var present := MapNotNull(docs, SourceText);
    if x in Sources(docs) {
      MapNotNullSound(docs, SourceText, x);
    }
    if exists i :: 0 <= i < |docs| && SourceText(docs[i]) == Some(x) {
      var i :| 0 <= i < |docs| && SourceText(docs[i]) == Some(x);
      MapNotNullComplete(docs, SourceText, i);
    }
  }

  /** Sources are listed in the order of their first appearance. */
  lemma SourcesFirstAppearance(docs: seq<RetrievedDocument>)
    ensures var present := MapNotNull(docs, SourceText);
            forall i, j :: 0 <= i < j < |Sources(docs)| ==>
              FirstIndex(present, Sources(docs)[i]) < FirstIndex(present, Sources(docs)[j])
  {
    DistinctFirstOccurrenceOrder(MapNotNull(docs, SourceText));
  }

  /** The intended context holds every document's numbered header and its
      content. */
  lemma ContextHoldsEveryDocument(docs: seq<RetrievedDocument>, i: nat)
    requires i < |docs|
    ensures Contains(IntendedContext(docs), Header(i + 1, Label(docs[i])))
    ensures Contains(IntendedContext(docs), docs[i].content)
  {
    var h := Header(i + 1, Label(docs[i]));
    var c := docs[i].content;
    ContainsMiddle("", h, "\n" + c);
    assert "" + h + ("\n" + c) == Block(i, docs[i]);
    JoinContains(IntendedBlocks(docs), "\n\n", i, h);
    ContainsMiddle(h + "\n", c, "");
    assert h + "\n" + c + "" == Block(i, docs[i]);
    JoinContains(IntendedBlocks(docs), "\n\n", i, c);
  }

  /** A document without a source entry is shown as of unknown source. */
  lemma MissingSourceShownUnknown(docs: seq<RetrievedDocument>, i: nat)
    requires i < |docs| && "source" !in docs[i].metadata
    ensures Contains(IntendedContext(docs), Header(i + 1, UnknownSource))
    ensures SourceText(docs[i]).None?
  {
    ContextHoldsEveryDocument(docs, i);
  }

  /** The prompt holds the question and the whole context. */
  lemma PromptHoldsQuestionAndContext(question: string, context: string)
    ensures Contains(Prompt(question, context), question)
    ensures Contains(Prompt(question, context), context)
  {
    var body := PromptBody(question, context);
    assert OccursAt(question, question, 0) && OccursAt(context, context, 0);
    JoinContains(body, "\n", 7, question);
    JoinContains(body, "\n", 4, context);
  }

  /** The intended prompt holds the question and every document's content. */
  lemma IntendedPromptHoldsDocuments(question: string, docs: seq<RetrievedDocument>, i: nat)
    requires i < |docs|
    ensures Contains(Prompt(question, IntendedContext(docs)), question)
    ensures Contains(Prompt(question, IntendedContext(docs)), docs[i].content)
  {
    var context := IntendedContext(docs);
    PromptHoldsQuestionAndContext(question, context);
    ContextHoldsEveryDocument(docs, i);
    JoinContains(PromptBody(question, context), "\n", 4, docs[i].content);
  }

  /** The documents put a non-blank line at column 0 into the prompt
      literal: the second header when there are two documents or more,
      otherwise the content of the only one. */
  predicate FlushContext(docs: seq<RetrievedDocument>) {
    |docs| >= 2 || (|docs| == 1 && |docs[0].content| > 0 && !IsWhitespace(docs[0].content[0]))
  }

  function FlushLine(docs: seq<RetrievedDocument>): string
    requires FlushContext(docs)
  {
    if |docs| >= 2 then Header(2, Label(docs[1])) else docs[0].content
  }

  lemma HeaderAtColumnZero(n: nat, source: string)
    ensures !IsBlank(Header(n, source)) && IndentWidth(Header(n, source)) == 0
  {
    assert Header(n, source)[0] == '[';
  }

  lemma MarginThenBreak(m: string, b: string, rest: string)
    ensures m + (b + "\n\n" + rest) == (m + b + "\n") + "\n" + rest
  {
  }

  /** The column-0 line is one of the lines of the context behind the margin. */
  lemma FlushLineInContext(docs: seq<RetrievedDocument>)
    requires SingleLineDocuments(docs) && FlushContext(docs)
    ensures FlushLine(docs) in Lines(Margin + IntendedContext(docs))
  {
    var blocks := IntendedBlocks(docs);
    if |docs| == 1 {
      var h := Header(1, Label(docs[0]));
      var c := docs[0].content;
      assert IntendedContext(docs) == Block(0, docs[0]) == h + "\n" + c;
      assert Margin + (h + "\n" + c) == (Margin + h) + "\n" + c;
      LinesConcat(Margin + h, c);
      LinesSingle(c);
    } else {
      var h := Header(2, Label(docs[1]));
      HeaderSingleLine(2, Label(docs[1]));
      JoinCons(blocks[0], blocks[1..], "\n\n");
      assert [blocks[0]] + blocks[1..] == blocks;
      var rest := Join(blocks[1..], "\n\n");
      var tail := if |docs| == 2 then docs[1].content
                  else docs[1].content + "\n\n" + Join(blocks[2..], "\n\n");
      if |docs| > 2 {
        JoinCons(blocks[1], blocks[2..], "\n\n");
        assert [blocks[1]] + blocks[2..] == blocks[1..];
      }
      assert rest == h + "\n" + tail;
      MarginThenBreak(Margin, blocks[0], rest);
      LinesConcat(Margin + blocks[0] + "\n", rest);
      LinesConcat(h, tail);
      LinesSingle(h);
    }
  }

  /** For single-line documents that put a line at column 0 into the
      literal, trimIndent removes nothing but the literal's first and last
      lines: the prompt sent is every line of the intended prompt behind the
      literal's 12-space margin. */
  lemma SentPromptKeepsMargins(question: string, docs: seq<RetrievedDocument>)
    requires SingleLineDocuments(docs) && FlushContext(docs)
    ensures PromptAsWritten(question, Context(docs)) ==
            Join(MapSeq(PromptBody(question, IntendedContext(docs)), l => Margin + l), "\n")
  {
    ContextAgreesOnSingleLines(docs);
    var ctx := IntendedContext(docs);
    var padded := MapSeq(PromptBody(question, ctx), l => Margin + l);
    var x := Join(padded, "\n");
    JoinFramed(padded, PromptClose);
    var line := FlushLine(docs);
    FlushLineInContext(docs);
    assert padded[4] == Margin + ctx;
    LinesOfJoinInclude(padded, 4, line);
    if |docs| >= 2 {
      HeaderAtColumnZero(2, Label(docs[1]));
    }
    assert IsMargin(PromptClose);
    TrimIndentFramed(x, PromptClose, line);
  }

  /** Under the same conditions the prompt sent to the model holds the
      question and every document's header and content. */
  lemma AskedPromptHoldsDocuments(question: string, docs: seq<RetrievedDocument>, i: nat)
    requires SingleLineDocuments(docs) && FlushContext(docs) && i < |docs|
    ensures Contains(PromptAsWritten(question, Context(docs)), question)
    ensures Contains(PromptAsWritten(question, Context(docs)), Header(i + 1, Label(docs[i])))
    ensures Contains(PromptAsWritten(question, Context(docs)), docs[i].content)
  {
    SentPromptKeepsMargins(question, docs);
    var ctx := IntendedContext(docs);
    var padded := MapSeq(PromptBody(question, ctx), l => Margin + l);
    assert padded[7] == Margin + question + "";
    assert OccursAt(question, question, 0);
    ContainsWithin(Margin, question, "", question);
    JoinContains(padded, "\n", 7, question);
    ContextHoldsEveryDocument(docs, i);
    assert padded[4] == Margin + ctx + "";
    ContainsWithin(Margin, ctx, "", Header(i + 1, Label(docs[i])));
    ContainsWithin(Margin, ctx, "", docs[i].content);
    JoinContains(padded, "\n", 4, Header(i + 1, Label(docs[i])));
    JoinContains(padded, "\n", 4, docs[i].content);
  }
  /** The intended prompt opens with its first line at column 0. */
  lemma PromptStartsAtColumnZero(question: string, context: string)
    ensures StartsWith(Prompt(question, context), Intro)
    ensures Prompt(question, context)[0] == Intro[0] && !IsWhitespace(Intro[0])
  {
    JoinStartsWithFirst(PromptBody(question, context), "\n");
  }

  /** The intended block opens with its numbered header at column 0. */
  lemma BlockStartsWithHeader(index: nat, doc: RetrievedDocument)
    ensures StartsWith(Block(index, doc), Header(index + 1, Label(doc)))
    ensures Block(index, doc)[0] == '['
  {
    var header := Header(index + 1, Label(doc));
    PrefixOfConcat(header, "\n" + doc.content);
    assert header + ("\n" + doc.content) == Block(index, doc);
  }

  lemma HeaderSingleLine(n: nat, source: string)
    requires '\n' !in source
    ensures '\n' !in Header(n, source)
  {
    var d := NatToString(n);
    assert forall k :: 0 <= k < |d| ==> d[k] != '\n';
    assert '\n' !in "[문서 " && '\n' !in ": " && '\n' !in "]";
  }

  /** With a one-line source and one-line content the block literal comes
      out as intended: header, line break, content. */
  lemma BlockAgreesOnSingleLine(index: nat, doc: RetrievedDocument)
    requires '\n' !in Label(doc) && '\n' !in doc.content
    ensures BlockAsWritten(index, doc) == Block(index, doc)
  {
    var header := Header(index + 1, Label(doc));
    HeaderSingleLine(index + 1, Label(doc));
    var body := [header, doc.content];
    assert IsMargin(Margin);
    assert header[0] == '[';
    var padded := MapSeq(body, l => Margin + l);
    assert padded == [Margin + header, Margin + doc.content];
    assert [""] + padded + [Margin] == ["", Margin + header, Margin + doc.content, Margin];
    TrimIndentLiteral(body, Margin);
    JoinCons(header, [doc.content], "\n");
  }

  /** As written, content of several lines whose second line starts at
      column 0 pulls the least indent to 0, so the header keeps the
      literal's 12-space margin and the block differs from the intended one. */
  lemma BlockAsWrittenKeepsMargin(index: nat, doc: RetrievedDocument, first: string, second: string)
    requires doc.content == first + "\n" + second
    requires '\n' !in Label(doc) && '\n' !in first && '\n' !in second
    requires |second| > 0 && !IsWhitespace(second[0])
    ensures StartsWith(BlockAsWritten(index, doc), Margin + Header(index + 1, Label(doc)))
    ensures BlockAsWritten(index, doc) != Block(index, doc)
  {
    var header := Header(index + 1, Label(doc));
    HeaderSingleLine(index + 1, Label(doc));
    var m := Margin;
    assert '\n' !in m;
    assert m + doc.content == (m + first) + "\n" + second;
    var raw := ["", m + header, m + doc.content, m];
    assert raw == ["", m + header] + [(m + first) + "\n" + second] + [m];
    JoinSplitPart(["", m + header], m + first, second, [m], "\n");
    var lines := ["", m + header, m + first, second, m];
    assert ["", m + header] + [m + first, second] + [m] == lines;
    LinesOfJoin(lines);
    assert !IsBlank(lines[3]) && IndentWidth(lines[3]) == 0;
    MinIndentBelow(lines, 3);
    assert IsBlank(lines[0]) && IsBlank(lines[4]);
    var kept := TrimIndentLines(lines);
    assert kept[0] == DropChars(lines[1], 0) == m + header;
    JoinStartsWithFirst(kept, "\n");
    assert BlockAsWritten(index, doc)[0] == ' ';
    BlockStartsWithHeader(index, doc);
  }

  lemma IntroSingle() ensures '\n' !in Intro {}
  lemma InstructionSingle() ensures '\n' !in Instruction {}
  lemma HeadingsSingle()
    ensures '\n' !in ReferenceHeading && '\n' !in QuestionHeading && '\n' !in RulesHeading
  {}
  lemma Rule1Single() ensures '\n' !in Rule1 {}
  lemma Rule2Single() ensures '\n' !in Rule2Lead + Rule2Quote + Rule2Tail
  {
    assert '\n' !in Rule2Lead;
    assert '\n' !in Rule2Quote;
    assert '\n' !in Rule2Tail;
  }
  lemma Rule3Single() ensures '\n' !in Rule3 {}
  lemma Rule45Single() ensures '\n' !in Rule4 && '\n' !in Rule5 {}

  /** Every line of the prompt but the context is a single line when the
      question is. */
  lemma PromptBodySingle(question: string, context: string)
    requires '\n' !in question
    ensures forall k :: 0 <= k < |PromptBody(question, context)| && k != 4 ==> '\n' !in PromptBody(question, context)[k]
  {
    IntroSingle();
    InstructionSingle();
    HeadingsSingle();
    Rule1Single();
    Rule2Single();
    Rule3Single();
    Rule45Single();
  }

  /** As written, a context of several lines whose second line starts at
      column 0 (every context does: the header, then the content) pulls the
      least indent of the prompt literal to 0, so each of its own lines keeps
      the 12-space margin and the prompt differs from the intended one. */
  lemma PromptAsWrittenKeepsMargin(question: string, first: string, second: string)
    requires '\n' !in question && '\n' !in first && '\n' !in second
    requires |second| > 0 && !IsWhitespace(second[0])
    ensures StartsWith(PromptAsWritten(question, first + "\n" + second), Margin + Intro)
    ensures PromptAsWritten(question, first + "\n" + second) != Prompt(question, first + "\n" + second)
  {
    var context := first + "\n" + second;
    var lines := PromptLiteralLines(question, first, second);
    assert !IsBlank(lines[6]) && IndentWidth(lines[6]) == 0;
    MinIndentBelow(lines, 6);
    assert IsBlank(lines[0]) && IsBlank(lines[|lines| - 1]);
    var kept := TrimIndentLines(lines);
    assert kept[0] == DropChars(lines[1], 0) == Margin + Intro;
    JoinStartsWithFirst(kept, "\n");
    assert PromptAsWritten(question, context)[0] == ' ';
    PromptStartsAtColumnZero(question, context);
  }

  /** The raw prompt literal's lines other than the context line hold no
      line break. */
  lemma PaddedPromptSingle(question: string, context: string)
    requires '\n' !in question
    ensures var raw := [""] + MapSeq(PromptBody(question, context), l => Margin + l) + [PromptClose];
      forall k :: 0 <= k < |raw| && k != 5 ==> '\n' !in raw[k]
  {
    var body := PromptBody(question, context);
    var raw := [""] + MapSeq(body, l => Margin + l) + [PromptClose];
    assert '\n' !in Margin && '\n' !in PromptClose;
    PromptBodySingle(question, context);
    forall k | 0 <= k < |raw| && k != 5 ensures '\n' !in raw[k] {
      if 1 <= k < |raw| - 1 {
        assert raw[k] == Margin + body[k - 1];
      }
    }
  }

  /** Replacing one entry of a list of break-free lines but one by two
      break-free lines leaves no line with a break. */
  lemma SplicedLinesSingle(raw: seq<string>, at: int, x: string, y: string)
    requires 0 <= at < |raw| && '\n' !in x && '\n' !in y
    requires forall k :: 0 <= k < |raw| && k != at ==> '\n' !in raw[k]
    ensures forall p :: p in raw[..at] + [x, y] + raw[at + 1..] ==> '\n' !in p
  {
    var lines := raw[..at] + [x, y] + raw[at + 1..];
    forall p | p in lines ensures '\n' !in p {
      var k :| 0 <= k < |lines| && lines[k] == p;
      if k < at {
        assert p == raw[k];
      } else if k > at + 1 {
        assert p == raw[k - 1];
      }
    }
  }

  /** The physical lines of the prompt literal once the context has been
      interpolated: the context's second line lands at column 0. */
  lemma PromptLiteralLines(question: string, first: string, second: string) returns (lines: seq<string>)
    requires '\n' !in question && '\n' !in first && '\n' !in second
    ensures |lines| == 18
    ensures Lines(Join([""] + MapSeq(PromptBody(question, first + "\n" + second), l => Margin + l) + [PromptClose], "\n")) == lines
    ensures lines[0] == "" && lines[1] == Margin + Intro && lines[6] == second && lines[17] == PromptClose
  {
    var context := first + "\n" + second;
    var m := Margin;
    assert '\n' !in m && '\n' !in PromptClose;
    var body := PromptBody(question, context);
    var padded := MapSeq(body, l => m + l);
    var raw := [""] + padded + [PromptClose];
    assert raw[5] == m + context == (m + first) + "\n" + second;
    var a := raw[..5];
    var b := raw[6..];
    assert raw == a + [(m + first) + "\n" + second] + b;
    JoinSplitPart(a, m + first, second, b, "\n");
    lines := a + [m + first, second] + b;
    PaddedPromptSingle(question, context);
    SplicedLinesSingle(raw, 5, m + first, second);
    LinesOfJoin(lines);
  }

  /** The prompt built as written from one retrieved document with a
      one-line source and one-line content keeps the margin on its own
      lines, while the block itself comes out as intended. */
  lemma PromptAsWrittenOnOneDocument(question: string, doc: RetrievedDocument)
    requires '\n' !in question && '\n' !in Label(doc) && '\n' !in doc.content
    requires |doc.content| > 0 && !IsWhitespace(doc.content[0])
    ensures Context([doc]) == IntendedContext([doc])
    ensures StartsWith(PromptAsWritten(question, Context([doc])), Margin + Intro)
    ensures PromptAsWritten(question, Context([doc])) != Prompt(question, IntendedContext([doc]))
  {
    BlockAgreesOnSingleLine(0, doc);
    assert Blocks([doc]) == [Block(0, doc)];
    assert IntendedBlocks([doc]) == [Block(0, doc)];
    var header := Header(1, Label(doc));
    HeaderSingleLine(1, Label(doc));
    assert Block(0, doc) == header + "\n" + doc.content;
    PromptAsWrittenKeepsMargin(question, header, doc.content);
  }
}
