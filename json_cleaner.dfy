/** JsonCleaner: strips Markdown code fences and comment lines from an LLM
    reply, and cuts out the outermost JSON object. */
module JsonCleaner {
  import opened Wrappers
  import opened Strings

  const Fence: string := "```"
  const JsonFence: string := "```json"
  const CommentStart: string := "//"

  /** A line whose trimmed text does not start a comment. */
  predicate NotComment(line: string) {
    !StartsWith(Trim(line), CommentStart)
  }

  /** The line filter of cleanJsonText. Since && binds tighter than ||, an
      empty line is kept whatever the comment test says. */
  predicate KeepLine(line: string) {
    (NotComment(line) && !IsBlank(line)) || line == []
  }

  /** Empty lines stay, whitespace-only lines go, and no kept line is a
      comment. */
  lemma KeepLineCases(line: string)
    ensures line == [] ==> KeepLine(line)
    ensures line != [] && IsBlank(line) ==> !KeepLine(line)
    ensures KeepLine(line) ==> NotComment(line)
    ensures !IsBlank(line) && NotComment(line) ==> KeepLine(line)
  {
    assert Trim([]) == [];
  }

  /** replace("```json", "") followed by replace("```", ""). */
  function StripFences(text: string): string {
    Replace(Replace(text, JsonFence, ""), Fence, "")
  }

  /** cleanJsonText: drop both fence forms, trim, keep the lines KeepLine
      accepts in their order (Strings.Filter), rejoin them and trim again. */
  function CleanJsonText(text: string): (r: string)
    ensures IsTrimmed(r)
  {
    Trim(Join(Filter(Lines(Trim(StripFences(text))), KeepLine), "\n"))
  }

  lemma SubstringAvoids(b: string, a: string, pat: string)
    requires IsSubstring(b, a) && !Contains(a, pat)
    ensures !Contains(b, pat)
  {
    if Contains(b, pat) {
      SubstringContains(b, a, pat);
    }
  }

  /** Neither fence form survives cleaning. */
  lemma NoFenceLeft(text: string)
    ensures !Contains(CleanJsonText(text), Fence)
  {
    var x := StripFences(text);
    RemoveRunLeavesNone(Replace(text, JsonFence, ""), Fence);
    var t := Trim(x);
    TrimIsSubstring(x);
    SubstringAvoids(t, x, Fence);
    var ls := Lines(t);
    SplitPartsSubstrings(t, "\n");
    var kept := Filter(ls, KeepLine);
    forall i | 0 <= i < |kept| ensures !Contains(kept[i], Fence) {
      SubstringAvoids(kept[i], t, Fence);
    }
    JoinAvoids(kept, '\n', Fence);
    var j := Join(kept, "\n");
    TrimIsSubstring(j);
    SubstringAvoids(Trim(j), j, Fence);
  }

  /** No line of s is a comment line. */
  predicate NoCommentLine(s: string) {
    forall j :: 0 <= j < |Lines(s)| ==> NotComment(Lines(s)[j])
  }

  /** A leading line break only adds an empty first line ... */
  lemma DropLeadingBreak(t: string)
    requires NoCommentLine(['\n'] + t)
    ensures NoCommentLine(t)
  {
    SplitOnConsSep(t, '\n');
    assert forall j :: 0 <= j < |Lines(t)| ==> Lines(t)[j] == Lines(['\n'] + t)[j + 1];
  }

  /** ... and other leading whitespace only pads the first line. */
  lemma DropLeadingBlank(w: char, t: string)
    requires IsWhitespace(w) && w != '\n' && NoCommentLine([w] + t)
    ensures NoCommentLine(t)
  {
    SplitOnConsOther(w, t, '\n');
    assert Lines([w] + t) == PrependFirst(w, Lines(t));
    PrependFirstNoComment(w, Lines(t));
  }

  lemma PrependFirstNoComment(w: char, r: seq<string>)
    requires |r| >= 1 && IsWhitespace(w)
    requires forall j :: 0 <= j < |r| ==> NotComment(PrependFirst(w, r)[j])
    ensures forall j :: 0 <= j < |r| ==> NotComment(r[j])
  {
    var e := PrependFirst(w, r);
    TrimConsWhitespace(w, r[0]);
    assert NotComment(e[0]);
  }

  /** Dropping leading whitespace creates no comment line ... */
  lemma {:induction false} NoCommentTrimStart(s: string)
    requires NoCommentLine(s)
    ensures NoCommentLine(TrimStart(s))
  {
    if s != [] && IsWhitespace(s[0]) {
      var t := s[1..];
      assert s == [s[0]] + t;
      if s[0] == '\n' {
        DropLeadingBreak(t);
      } else {
        DropLeadingBlank(s[0], t);
      }
      NoCommentTrimStart(t);
    }
  }

  /** A trailing line break only adds an empty last line ... */
  lemma DropTrailingBreak(t: string)
    requires NoCommentLine(t + ['\n'])
    ensures NoCommentLine(t)
  {
    var all := Lines(t + ['\n']);
    var r := Lines(t);
    SplitOnSnocSep(t, '\n');
    assert all == r + [[]];
    forall j | 0 <= j < |r| ensures NotComment(r[j]) {
      assert r[j] == all[j];
    }
  }

  /** ... and other trailing whitespace only pads the last line. */
  lemma DropTrailingBlank(t: string, w: char)
    requires IsWhitespace(w) && w != '\n' && NoCommentLine(t + [w])
    ensures NoCommentLine(t)
  {
    SplitOnSnocOther(t, w, '\n');
    assert Lines(t + [w]) == ExtendLast(Lines(t), w);
    ExtendLastNoComment(Lines(t), w);
  }

  lemma ExtendLastNoComment(r: seq<string>, w: char)
    requires |r| >= 1 && IsWhitespace(w)
    requires forall j :: 0 <= j < |r| ==> NotComment(ExtendLast(r, w)[j])
    ensures forall j :: 0 <= j < |r| ==> NotComment(r[j])
  {
    var e := ExtendLast(r, w);
    TrimSnocWhitespace(r[|r| - 1], w);
    assert NotComment(e[|r| - 1]);
  }

  /** ... and neither does dropping trailing whitespace. */
  lemma {:induction false} NoCommentTrimEnd(s: string)
    requires NoCommentLine(s)
    ensures NoCommentLine(TrimEnd(s))
  {
    if s != [] && IsWhitespace(s[|s| - 1]) {
      var t := s[..|s| - 1];
      var w := s[|s| - 1];
      assert s == t + [w];
      if w == '\n' {
        DropTrailingBreak(t);
      } else {
        DropTrailingBlank(t, w);
      }
      NoCommentTrimEnd(t);
    }
  }

  lemma KeptLinesHaveNoBreak(t: string)
    ensures forall p :: p in Filter(Lines(t), KeepLine) ==> '\n' !in p
  {
    SplitPartsFree(t, "\n");
    forall p | p in Filter(Lines(t), KeepLine) ensures '\n' !in p {
      ContainsChar(p, '\n');
    }
  }

  /** Before the final trim, the lines of the joined text are the kept lines. */
  lemma JoinedKeptLines(t: string)
    ensures NoCommentLine(Join(Filter(Lines(t), KeepLine), "\n"))
  {
    var kept := Filter(Lines(t), KeepLine);
    if kept == [] {
      assert Lines([]) == [[]];
      assert Trim([]) == [];
    } else {
      KeptLinesHaveNoBreak(t);
      JoinSplit(kept, '\n');
      forall i | 0 <= i < |kept| ensures NotComment(kept[i]) {
        KeepLineCases(kept[i]);
      }
    }
  }

  /** No line of the cleaned text starts with "//" once trimmed. */
  lemma NoCommentLineLeft(text: string)
    ensures NoCommentLine(CleanJsonText(text))
  {
    var t := Trim(StripFences(text));
    var j := Join(Filter(Lines(t), KeepLine), "\n");
    JoinedKeptLines(t);
    NoCommentTrimStart(j);
    NoCommentTrimEnd(TrimStart(j));
  }

  /** A JSON body cleaning should hand back unchanged: no surrounding
      whitespace, no fence, and every line one the filter keeps. */
  predicate CleanBody(b: string) {
    IsTrimmed(b) && !Contains(b, Fence) && forall l :: l in Lines(b) ==> KeepLine(l)
  }

  /** Where "```json" occurs, "```" occurs too. */
  lemma JsonFenceOccursAsFence(s: string, k: int)
    ensures OccursAt(s, JsonFence, k) ==> OccursAt(s, Fence, k)
  {
    if OccursAt(s, JsonFence, k) {
      assert JsonFence[..3] == Fence;
      assert s[k..k + 3] == s[k..k + 7][..3];
    }
  }

  /** In a body followed by its closing fence line, the first fence is the
      closing one. */
  lemma NoFenceBeforeClose(b: string, k: int)
    requires !Contains(b, Fence) && 0 <= k <= |b| + 1
    ensures !OccursAt(['\n'] + b + ['\n'] + Fence, Fence, k)
  {
    var nb := ['\n'] + b;
    var y := nb + (['\n'] + Fence);
    assert ['\n'] + b + ['\n'] + Fence == y;
    ConcatOccurrence(nb, ['\n'] + Fence, Fence, k);
    ConcatOccurrence(['\n'], b, Fence, k);
    OccurrenceCovers(nb, Fence, k, 0);
    OccurrenceCovers(y, Fence, k, |b| + 1);
    assert nb[0] == '\n' && y[|b| + 1] == '\n';
  }

  /** Nothing but the closing fence is removed after the opening one. */
  lemma StripClose(b: string, y: string)
    requires !Contains(b, Fence) && y == ['\n'] + b + ['\n'] + Fence
    ensures !Contains(y, JsonFence)
    ensures Replace(y, Fence, "") == ['\n'] + b + ['\n']
  {
    forall k | 0 <= k <= |b| + 1 ensures !OccursAt(y, Fence, k) {
      NoFenceBeforeClose(b, k);
    }
    forall k | 0 <= k <= |y| ensures !OccursAt(y, JsonFence, k) {
      JsonFenceOccursAsFence(y, k);
    }
    var c := |b| + 2;
    assert y[c..c + 3] == Fence;
    assert OccursAt(y, Fence, c);
    assert Contains(y, Fence);
    var v := IndexOf(y, Fence).value;
    assert v >= c;
    assert IndexOf(y, Fence) == Some(c);
    assert y[c + 3..] == [];
    assert Replace(y, Fence, "") == y[..c] + "" + Replace([], Fence, "");
    assert y[..c] == ['\n'] + b + ['\n'];
  }

  /** The reply "```json", line break, body, line break, "```" loses exactly
      its two fences. */
  lemma StripJsonFenced(b: string)
    requires !Contains(b, Fence)
    ensures StripFences(JsonFence + "\n" + b + "\n" + Fence) == ['\n'] + b + ['\n']
  {
    var y := ['\n'] + b + ['\n'] + Fence;
    var x := JsonFence + y;
    assert JsonFence + "\n" + b + "\n" + Fence == x;
    StripClose(b, y);
    assert x[..7] == JsonFence;
    assert IndexOf(x, JsonFence) == Some(0);
    assert x[7..] == y;
    ReplaceAbsent(y, JsonFence, "");
    assert Replace(x, JsonFence, "") == x[..0] + "" + Replace(y, JsonFence, "");
  }

  /** The reply "```", line break, body, line break, "```" loses exactly its
      two fences. */
  lemma StripPlainFenced(b: string)
    requires !Contains(b, Fence)
    ensures StripFences(Fence + "\n" + b + "\n" + Fence) == ['\n'] + b + ['\n']
  {
    var y := ['\n'] + b + ['\n'] + Fence;
    var x := Fence + y;
    assert Fence + "\n" + b + "\n" + Fence == x;
    StripClose(b, y);
    forall k | 0 <= k <= |x| ensures !OccursAt(x, JsonFence, k) {
      JsonFenceOccursAsFence(x, k);
      OccurrenceCovers(x, JsonFence, k, 3);
      ConcatOccurrence(Fence, y, Fence, k);
      if 3 <= k && k + 7 <= |x| {
        NoFenceBeforeClose(b, k - 3);
      }
    }
    ReplaceAbsent(x, JsonFence, "");
    assert x[..3] == Fence;
    assert IndexOf(x, Fence) == Some(0);
    assert x[3..] == y;
    assert Replace(x, Fence, "") == x[..0] + "" + Replace(y, Fence, "");
  }

  /** Text without a fence has nothing to strip. */
  lemma StripUnfenced(b: string)
    requires !Contains(b, Fence)
    ensures StripFences(b) == b
  {
    forall k | 0 <= k <= |b| ensures !OccursAt(b, JsonFence, k) {
      JsonFenceOccursAsFence(b, k);
    }
    ReplaceAbsent(b, JsonFence, "");
    ReplaceAbsent(b, Fence, "");
  }

  /** A body between two line breaks trims to itself. */
  lemma TrimFramed(b: string)
    requires IsTrimmed(b)
    ensures Trim(['\n'] + b + ['\n']) == b
  {
    assert ['\n'] + b + ['\n'] == ['\n'] + (b + ['\n']);
    TrimConsWhitespace('\n', b + ['\n']);
    TrimSnocWhitespace(b, '\n');
    TrimOfTrimmed(b);
  }

  /** The line phase keeps a clean body whole. */
  lemma LinePhaseKeepsBody(b: string)
    requires CleanBody(b)
    ensures Trim(Join(Filter(Lines(b), KeepLine), "\n")) == b
  {
    FilterKeepsAll(Lines(b), KeepLine);
    SplitJoin(b, "\n");
    TrimOfTrimmed(b);
  }

  /** Cleaning hands a clean JSON body back unchanged, whether it comes bare,
      in a json fence or in a plain fence. */
  lemma CleanKeepsBody(b: string)
    requires CleanBody(b)
    ensures CleanJsonText(b) == b
    ensures CleanJsonText(JsonFence + "\n" + b + "\n" + Fence) == b
    ensures CleanJsonText(Fence + "\n" + b + "\n" + Fence) == b
  {
    LinePhaseKeepsBody(b);
    StripUnfenced(b);
    TrimOfTrimmed(b);
    StripJsonFenced(b);
    StripPlainFenced(b);
    TrimFramed(b);
  }

  function IsOpenBrace(c: char): bool { c == '{' }
  function IsCloseBrace(c: char): bool { c == '}' }

  /** extractJsonObject: from the first '{' to the last '}'. */
  function ExtractJsonObject(text: string): (r: string)
    ensures IsSubstring(r, text)
  {
    OuterSpan(text, IsOpenBrace, IsCloseBrace)
  }

  /** text[i] is the first '{' and text[j], after it, the last '}'. */
  predicate OuterBraces(text: string, i: int, j: int) {
    0 <= i < j < |text| && text[i] == '{' && text[j] == '}' && '{' !in text[..i] && '}' !in text[j + 1..]
  }

  /** No '{' before the first one and no '}' after the last one. */
  lemma BracesOutside(text: string, i: int, j: int)
    requires 0 <= i < j < |text| && IsOpenBrace(text[i]) && IsCloseBrace(text[j])
    requires forall k :: 0 <= k < |text| && k < i ==> !IsOpenBrace(text[k])
    requires forall k :: 0 <= k < |text| && k > j ==> !IsCloseBrace(text[k])
    ensures OuterBraces(text, i, j)
  {
    assert forall k :: 0 <= k < i ==> text[..i][k] == text[k];
    assert forall k :: j + 1 <= k < |text| ==> text[j + 1..][k - j - 1] == text[k];
  }

  /** With a '{' before a '}', the result is the span from the first '{' to
      the last '}'; otherwise it is the input unchanged. */
  lemma ExtractJsonObjectCases(text: string)
    ensures OpensBeforeCloses(text, IsOpenBrace, IsCloseBrace) ==>
      exists i, j :: OuterBraces(text, i, j) && ExtractJsonObject(text) == text[i..j + 1]
    ensures !OpensBeforeCloses(text, IsOpenBrace, IsCloseBrace) ==> ExtractJsonObject(text) == text
  {
    if OpensBeforeCloses(text, IsOpenBrace, IsCloseBrace) {
      OuterSpanFound(text, IsOpenBrace, IsCloseBrace);
      var i := FindFirst(text, IsOpenBrace).value;
      var j := FindLast(text, IsCloseBrace).value;
      BracesOutside(text, i, j);
      assert ExtractJsonObject(text) == text[i..j + 1];
    } else {
      OuterSpanCases(text, IsOpenBrace, IsCloseBrace);
    }
  }

  lemma ExtractJsonObjectIdempotent(text: string)
    ensures ExtractJsonObject(ExtractJsonObject(text)) == ExtractJsonObject(text)
  {
    OuterSpanIdempotent(text, IsOpenBrace, IsCloseBrace);
  }
}
