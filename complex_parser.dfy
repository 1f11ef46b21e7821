/** The list-and-map controller's two parsing endpoints: parseCombined splits
    a reply into blocks and parses the first as a list and the second as a
    map; parseStructured reads "name:" header lines followed by item lines. */
module ComplexParser {
  import opened Strings
  import ListOutputParser
  import MapOutputParser

  const HeaderMark: string := ":"
  const BlockBreak: string := "\n\n"

  /** CategoryItem(name, items). */
  datatype Category = Category(name: string, items: seq<string>)

  /** One entry of the structured response, with its item count. */
  datatype CategorySummary = CategorySummary(name: string, items: seq<string>, itemCount: nat)

  /** The structured response: the categories and their number. */
  datatype StructuredReport = StructuredReport(categories: seq<CategorySummary>, totalCategories: nat)

  /** The combined response: list, map and their sizes. */
  datatype CombinedReport = CombinedReport(
    categories: seq<string>, details: MapOutputParser.Entries,
    categoryCount: nat, detailCount: nat)

  /** A trimmed line that ends with the header mark opens a category. */
  predicate IsHeader(trimmed: string) {
    EndsWith(trimmed, HeaderMark)
  }

  function HeaderName(trimmed: string): (r: string)
    ensures IsTrimmed(r)
  {
    Trim(RemoveSuffix(trimmed, HeaderMark))
  }

  /** An item is a non-empty trimmed line that is not a header. */
  predicate IsItem(t: string) {
    t != [] && IsTrimmed(t) && !IsHeader(t)
  }

  predicate IsCategory(c: Category) {
    c.name != [] && IsTrimmed(c.name) && forall i :: 0 <= i < |c.items| ==> IsItem(c.items[i])
  }

  /** The loop state of parseStructured: the categories pushed so far, the
      current category name (empty before the first header) and its items. */
  datatype Scan = Scan(done: seq<Category>, current: string, items: seq<string>)

  predicate GoodScan(st: Scan) {
    IsTrimmed(st.current)
    && (forall i :: 0 <= i < |st.done| ==> IsCategory(st.done[i]))
    && (forall i :: 0 <= i < |st.items| ==> IsItem(st.items[i]))
  }

  /** The categories once the current one, if it has a name, is pushed. */
  function Close(st: Scan): seq<Category> {
    if st.current != [] then st.done + [Category(st.current, st.items)] else st.done
  }

  /** Closing a well-formed scan yields well-formed categories only. */
  lemma CloseGood(st: Scan)
    requires GoodScan(st)
    ensures forall i :: 0 <= i < |Close(st)| ==> IsCategory(Close(st)[i])
  {
    var r := Close(st);
    if st.current != [] {
      assert IsCategory(Category(st.current, st.items));
      assert forall i :: 0 <= i < |st.done| ==> r[i] == st.done[i];
    }
  }

  /** One iteration of the loop over the reply's lines, given the trimmed line. */
  function StepOn(st: Scan, t: string): Scan {
    if IsHeader(t) then Scan(Close(st), HeaderName(t), [])
    else if t != [] then st.(items := st.items + [t])
    else st
  }

  function Step(st: Scan, line: string): Scan {
    StepOn(st, Trim(line))
  }

  /** An iteration keeps the scan well-formed: a header starts an empty
      category with a trimmed name, any other non-empty trim is an item. */
  lemma StepOnGood(st: Scan, t: string)
    requires GoodScan(st) && IsTrimmed(t)
    ensures GoodScan(StepOn(st, t))
  {
    if IsHeader(t) {
      CloseGood(st);
    } else if t != [] {
      assert IsItem(t);
      var items := st.items + [t];
      assert forall i :: 0 <= i < |st.items| ==> items[i] == st.items[i];
    }
  }

  /** The loop state after the given lines. */
  function ScanLines(lines: seq<string>): Scan
    decreases |lines|
  {
    if lines == [] then Scan([], [], [])
    else Step(ScanLines(lines[..|lines| - 1]), lines[|lines| - 1])
  }

  /** The loop keeps its state well-formed from the first line on. */
  lemma {:induction false} ScanLinesGood(lines: seq<string>)
    ensures GoodScan(ScanLines(lines))
    decreases |lines|
  {
    if lines != [] {
      ScanLinesGood(lines[..|lines| - 1]);
      StepOnGood(ScanLines(lines[..|lines| - 1]), Trim(lines[|lines| - 1]));
    }
  }

  /** The categories parseStructured collects: every one has a non-empty
      trimmed name and non-empty trimmed items that are not headers. */
  function Structured(text: string): (r: seq<Category>)
    ensures forall i :: 0 <= i < |r| ==> IsCategory(r[i])
  {
    var st := ScanLines(Lines(text));
    ScanLinesGood(Lines(text));
    CloseGood(st);
    Close(st)
  }

  predicate NoHeaders(lines: seq<string>) {
    forall i :: 0 <= i < |lines| ==> !IsHeader(Trim(lines[i]))
  }

  lemma ScanLinesSnoc(lines: seq<string>, x: string)
    ensures ScanLines(lines + [x]) == Step(ScanLines(lines), x)
  {
    assert (lines + [x])[..|lines|] == lines;
  }

  lemma NoHeadersTail(body: seq<string>)
    requires body != [] && NoHeaders(body)
    ensures !IsHeader(Trim(body[0])) && NoHeaders(body[1..])
  {
    forall i | 0 <= i < |body| - 1 ensures !IsHeader(Trim(body[1..][i])) {
      assert body[1..][i] == body[i + 1];
    }
  }

  lemma ShiftFirst<T>(p: seq<T>, body: seq<T>)
    requires body != []
    ensures p + body == (p + [body[0]]) + body[1..]
  {
  }

  /** A line that is not a header adds its non-empty trim to the items. */
  lemma StepItem(st: Scan, line: string)
    requires !IsHeader(Trim(line))
    ensures Step(st, line) == st.(items := st.items + TrimmedPiece(line))
  {
  }

  /** Lines without a header only add their non-empty trims to the current items. */
  lemma {:induction false} BodyAppendsItems(p: seq<string>, body: seq<string>)
    requires NoHeaders(body)
    ensures var st := ScanLines(p);
      ScanLines(p + body) == st.(items := st.items + NonEmptyTrimmed(body))
    decreases |body|
  {
    var st := ScanLines(p);
    if body == [] {
      assert p + body == p;
      assert st.items + [] == st.items;
    } else {
      var b := body[0];
      var rest := body[1..];
      ShiftFirst(p, body);
      NoHeadersTail(body);
      ScanLinesSnoc(p, b);
      StepItem(st, b);
      var items := st.items + TrimmedPiece(b);
      assert NonEmptyTrimmed(body) == TrimmedPiece(b) + NonEmptyTrimmed(rest);
      Assoc(st.items, TrimmedPiece(b), NonEmptyTrimmed(rest));
      calc {
        ScanLines(p + body);
        { BodyAppendsItems(p + [b], rest); }
        ScanLines(p + [b]).(items := items + NonEmptyTrimmed(rest));
      }
    }
  }

  /** Lines before the first header yield no category. */
  lemma PreambleDropped(pre: seq<string>)
    requires NoHeaders(pre)
    ensures Close(ScanLines(pre)) == []
  {
    BodyAppendsItems([], pre);
    assert [] + pre == pre;
  }

  /** A header followed by non-header lines contributes one category holding
      the lines' non-empty trims, or nothing when its name is empty. */
  lemma HeaderSection(pre: seq<string>, h: string, body: seq<string>)
    requires IsHeader(Trim(h)) && NoHeaders(body)
    ensures var name := HeaderName(Trim(h));
      Close(ScanLines(pre + [h] + body)) ==
        Close(ScanLines(pre)) + (if name != [] then [Category(name, NonEmptyTrimmed(body))] else [])
  {
    var t := Trim(h);
    var st := ScanLines(pre);
    ScanLinesSnoc(pre, h);
    HeaderStep(st, t);
    BodyAppendsItems(pre + [h], body);
    CloseHeaderScan(Close(st), HeaderName(t), NonEmptyTrimmed(body));
  }

  lemma HeaderStep(st: Scan, t: string)
    requires IsHeader(t)
    ensures StepOn(st, t) == Scan(Close(st), HeaderName(t), [])
  {
  }

  lemma CloseHeaderScan(done: seq<Category>, name: string, items: seq<string>)
    ensures var st := Scan(done, name, []);
      Close(st.(items := st.items + items)) == done + (if name != [] then [Category(name, items)] else [])
  {
    assert [] + items == items;
  }

  /** categories.map { name, items, itemCount } and totalCategories. */
  function Summarize(cats: seq<Category>): (r: StructuredReport)
    ensures r.totalCategories == |r.categories| == |cats|
    ensures forall i :: 0 <= i < |cats| ==>
      r.categories[i].name == cats[i].name && r.categories[i].items == cats[i].items
      && r.categories[i].itemCount == |cats[i].items|
  {
    if cats == [] then StructuredReport([], 0)
    else
      var rest := Summarize(cats[1..]);
      var c := cats[0];
      StructuredReport([CategorySummary(c.name, c.items, |c.items|)] + rest.categories, rest.totalCategories + 1)
  }

  lemma ScanLinesPrefix(lines: seq<string>, i: int)
    requires 0 <= i < |lines|
    ensures ScanLines(lines[..i + 1]) == StepOn(ScanLines(lines[..i]), Trim(lines[i]))
  {
    assert lines[..i + 1][..i] == lines[..i];
  }

  /** parseStructured: the loop over the reply's lines. */
  method ParseStructured(text: string) returns (report: StructuredReport)
    ensures report == Summarize(Structured(text))
  {
    var lines := Lines(text);
    var done: seq<Category> := [];
    var current: string := [];
    var items: seq<string> := [];
    for i := 0 to |lines|
      invariant Scan(done, current, items) == ScanLines(lines[..i])
    {
      ScanLinesPrefix(lines, i);
      var t := Trim(lines[i]);
      if EndsWith(t, HeaderMark) {
        if current != [] {
          done := done + [Category(current, items)];
        }
        current := Trim(RemoveSuffix(t, HeaderMark));
        items := [];
      } else if t != [] {
        items := items + [t];
      }
    }
    assert lines[..|lines|] == lines;
    var categories := if current != [] then done + [Category(current, items)] else done;
    report := Summarize(categories);
  }

  /** filter { it.trim().isNotEmpty() }. */
  function NonBlank(parts: seq<string>): (r: seq<string>)
    ensures forall i :: 0 <= i < |r| ==> !IsBlank(r[i]) && r[i] in parts
    ensures forall i :: 0 <= i < |parts| && !IsBlank(parts[i]) ==> parts[i] in r
  {
    if parts == [] then []
    else (if IsBlank(parts[0]) then [] else [parts[0]]) + NonBlank(parts[1..])
  }

  function Blocks(text: string): seq<string> {
    NonBlank(Split(text, BlockBreak))
  }

  /** parseCombined: the first non-blank block as a newline list, the second
      as a colon map. */
  function ParseCombined(text: string): (r: CombinedReport)
    ensures r.categoryCount == |r.categories| && r.detailCount == |r.details|
    ensures NoDuplicates(r.categories) && MapOutputParser.DistinctKeys(r.details)
  {
    var blocks := Blocks(text);
    var categories := if |blocks| > 0 then ListOutputParser.Parse(blocks[0], ListOutputParser.Newline) else [];
    var details := if |blocks| > 1 then MapOutputParser.Parse(blocks[1], MapOutputParser.Colon) else [];
    CombinedReport(categories, details, |categories|, |details|)
  }

  /** A blank reply yields neither categories nor details. */
  lemma CombinedBlank(text: string)
    requires IsBlank(text)
    ensures ParseCombined(text).categories == [] && ParseCombined(text).details == []
  {
    var parts := Split(text, BlockBreak);
    SplitPartsSubstrings(text, BlockBreak);
    forall i | 0 <= i < |parts| ensures IsBlank(parts[i]) {
      SubstringBlank(parts[i], text);
    }
    AllBlankNoBlocks(parts);
  }

  lemma {:induction false} AllBlankNoBlocks(parts: seq<string>)
    requires forall i :: 0 <= i < |parts| ==> IsBlank(parts[i])
    ensures NonBlank(parts) == []
  {
    if parts != [] {
      AllBlankNoBlocks(parts[1..]);
    }
  }

  /** A reply with no blank-line break is one list and no map. */
  lemma CombinedSingleBlock(text: string)
    requires !Contains(text, BlockBreak) && !IsBlank(text)
    ensures ParseCombined(text).categories == ListOutputParser.Parse(text, ListOutputParser.Newline)
    ensures ParseCombined(text).details == []
  {
    assert |BlockBreak| == 2;
    assert Split(text, BlockBreak) == [text];
    assert NonBlank([text]) == [text] + NonBlank([]);
  }

  /** Every category the combined parse returns occurs in the reply. */
  lemma CombinedCategoriesInText(text: string, x: string)
    requires x in ParseCombined(text).categories
    ensures IsSubstring(x, text)
  {
    var blocks := Blocks(text);
    var b := blocks[0];
    ListOutputParser.ItemIsSubstring(b, ListOutputParser.Newline, x);
    SplitPartsSubstrings(text, BlockBreak);
    SubstringTrans(x, b, text);
  }
}
