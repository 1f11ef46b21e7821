/** ListOutputParser.parse: an LLM reply becomes a list of items. Lines are
    trimmed and empty ones dropped; with a separator other than a line break
    each line is further split on it; the result is deduplicated. */
module ListOutputParser {
  import opened Strings

  /** The default separator of the parser. */
  const Newline: string := "\n"

  predicate IsItem(x: string) {
    x != [] && IsTrimmed(x)
  }

  /** The items one non-empty trimmed line contributes. */
  function Pieces(line: string, separator: string): (r: seq<string>)
    requires IsItem(line)
    ensures forall i :: 0 <= i < |r| ==> IsItem(r[i])
  {
    if separator != Newline then NonEmptyTrimmed(Split(line, separator)) else [line]
  }

  /** flatMap of Pieces over the lines. */
  function FlatPieces(lines: seq<string>, separator: string): (r: seq<string>)
    requires forall i :: 0 <= i < |lines| ==> IsItem(lines[i])
    ensures forall i :: 0 <= i < |r| ==> IsItem(r[i])
  {
    if lines == [] then []
    else Pieces(lines[0], separator) + FlatPieces(lines[1..], separator)
  }

  /** An item of the flattened list comes from one line, and every line's
      items are in it. */
  lemma {:induction false} FlatPiecesMember(lines: seq<string>, separator: string, x: string)
    requires forall i :: 0 <= i < |lines| ==> IsItem(lines[i])
    ensures x in FlatPieces(lines, separator) <==>
      exists j :: 0 <= j < |lines| && x in Pieces(lines[j], separator)
  {
    if lines != [] {
      var tail := lines[1..];
      FlatPiecesMember(tail, separator, x);
      if exists j :: 0 <= j < |lines| && x in Pieces(lines[j], separator) {
        var j :| 0 <= j < |lines| && x in Pieces(lines[j], separator);
        if j > 0 {
          assert tail[j - 1] == lines[j];
        }
      }
      if exists j :: 0 <= j < |tail| && x in Pieces(tail[j], separator) {
        var j :| 0 <= j < |tail| && x in Pieces(tail[j], separator);
        assert lines[j + 1] == tail[j];
      }
    }
  }

  function Parse(text: string, separator: string): (r: seq<string>)
    ensures forall i :: 0 <= i < |r| ==> IsItem(r[i])
    ensures NoDuplicates(r)
  {
    Distinct(FlatPieces(NonEmptyTrimmed(Lines(text)), separator))
  }

  /** An item of the parse comes from a piece of some line. */
  lemma ParseMember(text: string, separator: string, x: string)
    ensures x in Parse(text, separator) <==>
      exists c :: c in NonEmptyTrimmed(Lines(text)) && x in Pieces(c, separator)
  {
    var clean := NonEmptyTrimmed(Lines(text));
    var flat := FlatPieces(clean, separator);
    FlatPiecesMember(clean, separator, x);
    if x in flat {
      var k :| 0 <= k < |flat| && flat[k] == x;
      assert x in Parse(text, separator);
    }
    if x in Parse(text, separator) {
      var k :| 0 <= k < |Parse(text, separator)| && Parse(text, separator)[k] == x;
      assert x in flat;
    }
  }

  /** With the line-break separator the items are exactly the distinct
      non-empty trimmed lines. */
  lemma NewlineItemsAreLines(text: string, x: string)
    ensures x in Parse(text, Newline) <==>
      x != [] && exists j :: 0 <= j < |Lines(text)| && Trim(Lines(text)[j]) == x
  {
    ParseMember(text, Newline, x);
    NonEmptyTrimmedMember(Lines(text), x);
  }

  /** With any other non-empty separator, no item contains the separator. */
  lemma ItemsAvoidSeparator(text: string, separator: string, x: string)
    requires separator != Newline && |separator| > 0
    requires x in Parse(text, separator)
    ensures !Contains(x, separator)
  {
    ParseMember(text, separator, x);
    var c :| c in NonEmptyTrimmed(Lines(text)) && x in Pieces(c, separator);
    var parts := SplitOn(c, separator);
    NonEmptyTrimmedMember(parts, x);
    var m :| 0 <= m < |parts| && Trim(parts[m]) == x;
    SplitPartsFree(c, separator);
    assert parts[m] in parts;
    TrimIsSubstring(parts[m]);
    if Contains(x, separator) {
      SubstringContains(x, parts[m], separator);
    }
  }

  /** Every item is a piece of the reply text. */
  lemma ItemIsSubstring(text: string, separator: string, x: string)
    requires x in Parse(text, separator)
    ensures IsSubstring(x, text)
  {
    var ls := Lines(text);
    ParseMember(text, separator, x);
    var c :| c in NonEmptyTrimmed(ls) && x in Pieces(c, separator);
    NonEmptyTrimmedMember(ls, c);
    var j :| 0 <= j < |ls| && Trim(ls[j]) == c;
    SplitPartsSubstrings(text, Newline);
    assert ls[j] in ls;
    TrimIsSubstring(ls[j]);
    SubstringTrans(c, ls[j], text);
    if separator != Newline {
      var parts := Split(c, separator);
      NonEmptyTrimmedMember(parts, x);
      var m :| 0 <= m < |parts| && Trim(parts[m]) == x;
      SplitPartsSubstrings(c, separator);
      assert parts[m] in parts;
      TrimIsSubstring(parts[m]);
      SubstringTrans(x, parts[m], c);
      SubstringTrans(x, c, text);
    }
  }

  /** A blank reply yields no items. */
  lemma BlankYieldsNothing(text: string, separator: string)
    requires IsBlank(text)
    ensures Parse(text, separator) == []
  {
    var ls := Lines(text);
    var clean := NonEmptyTrimmed(ls);
    if clean != [] {
      NonEmptyTrimmedMember(ls, clean[0]);
      var j :| 0 <= j < |ls| && Trim(ls[j]) == clean[0];
      SplitPartsSubstrings(text, Newline);
      assert ls[j] in ls;
      SubstringBlank(ls[j], text);
      TrimEmptyIffBlank(ls[j]);
    }
  }

  /** Items keep the order in which they first occur in the reply. */
  lemma FirstOccurrenceOrder(text: string, separator: string)
    ensures var flat := FlatPieces(NonEmptyTrimmed(Lines(text)), separator);
      var r := Parse(text, separator);
      forall i, j :: 0 <= i < j < |r| ==> FirstIndex(flat, r[i]) < FirstIndex(flat, r[j])
  {
    DistinctFirstOccurrenceOrder(FlatPieces(NonEmptyTrimmed(Lines(text)), separator));
  }
}
