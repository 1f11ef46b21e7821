/** The resume analyzer's BeanOutputParser.cleanJsonResponse: trims the reply,
    strips one Markdown fence, and keeps the outermost JSON object or array. */
module BeanOutputParser {
  import opened Strings

  const Fence: string := "```"
  const JsonFence: string := "```json"

  /** The trim and fence-stripping steps. */
  function StripFence(text: string): (r: string)
    ensures IsTrimmed(r)
    ensures IsSubstring(r, text)
  {
    var t := Trim(text);
    TrimIsSubstring(text);
    if StartsWith(t, JsonFence) then
      SubstringTrans(Unfence(t, JsonFence), t, text);
      Unfence(t, JsonFence)
    else if StartsWith(t, Fence) then
      SubstringTrans(Unfence(t, Fence), t, text);
      Unfence(t, Fence)
    else t
  }

  /** removePrefix(open).removeSuffix("```").trim() on text starting with open. */
  function Unfence(t: string, open: string): (r: string)
    requires StartsWith(t, open)
    ensures IsTrimmed(r)
    ensures IsSubstring(r, t)
  {
    var body := RemoveSuffix(RemovePrefix(t, open), Fence);
    assert RemovePrefix(t, open) == t[|open|..];
    SubstringSlice(t, |open|, |t|);
    assert body == t[|open|..][..|body|];
    SubstringSlice(t[|open|..], 0, |body|);
    SubstringTrans(body, t[|open|..], t);
    TrimIsSubstring(body);
    SubstringTrans(Trim(body), body, t);
    Trim(body)
  }

  function IsOpen(c: char): bool { c == '{' || c == '[' }
  function IsClose(c: char): bool { c == '}' || c == ']' }

  /** cleanJsonResponse. */
  function CleanJsonResponse(text: string): (r: string)
    ensures IsSubstring(r, text)
  {
    var s := StripFence(text);
    SubstringTrans(OuterSpan(s, IsOpen, IsClose), s, text);
    OuterSpan(s, IsOpen, IsClose)
  }

  /** A reply fenced as JSON loses exactly the fence and surrounding blanks. */
  lemma JsonFenceStripped(body: string)
    ensures StripFence(JsonFence + (body + Fence)) == Trim(body)
  {
    var t := JsonFence + (body + Fence);
    assert t[0] == '`' && t[|t| - 1] == '`';
    TrimOfTrimmed(t);
    PrefixOfConcat(JsonFence, body + Fence);
    SuffixOfConcat(body, Fence);
  }

  /** A plain fence is stripped when the reply does not open with the JSON fence. */
  lemma PlainFenceStripped(body: string)
    requires !StartsWith(Fence + (body + Fence), JsonFence)
    ensures StripFence(Fence + (body + Fence)) == Trim(body)
  {
    var t := Fence + (body + Fence);
    assert t[0] == '`' && t[|t| - 1] == '`';
    TrimOfTrimmed(t);
    PrefixOfConcat(Fence, body + Fence);
    SuffixOfConcat(body, Fence);
  }

  /** A reply that does not start with a fence is only trimmed. */
  lemma UnfencedOnlyTrimmed(text: string)
    requires !StartsWith(Trim(text), Fence)
    ensures StripFence(text) == Trim(text)
  {
    JsonFenceHasFence(Trim(text));
  }

  lemma JsonFenceHasFence(t: string)
    ensures StartsWith(t, JsonFence) ==> StartsWith(t, Fence)
  {
    if StartsWith(t, JsonFence) {
      assert t[..3] == t[..7][..3];
    }
  }

  /** With an opening bracket before a closing one, the result is the span from
      the first opening bracket to the last closing bracket; otherwise it is the
      trimmed, de-fenced text. */
  lemma CleanCases(text: string)
    ensures var s := StripFence(text);
      OpensBeforeCloses(s, IsOpen, IsClose) ==>
        exists i, j :: OuterPair(s, IsOpen, IsClose, i, j) && CleanJsonResponse(text) == s[i..j + 1]
    ensures !OpensBeforeCloses(StripFence(text), IsOpen, IsClose) ==>
      CleanJsonResponse(text) == StripFence(text)
  {
    OuterSpanCases(StripFence(text), IsOpen, IsClose);
  }

  /** An extracted span starts and ends with a bracket, and cleaning it again
      changes nothing. */
  lemma ExtractedSpanStable(text: string)
    requires OpensBeforeCloses(StripFence(text), IsOpen, IsClose)
    ensures var r := CleanJsonResponse(text);
      |r| >= 2 && IsOpen(r[0]) && IsClose(r[|r| - 1]) && CleanJsonResponse(r) == r
  {
    var s := StripFence(text);
    var r := OuterSpan(s, IsOpen, IsClose);
    assert CleanJsonResponse(text) == r;
    SpanBracketed(s);
    OuterSpanIdempotent(s, IsOpen, IsClose);
    CleanFixed(r);
  }

  lemma CleanFixed(r: string)
    requires |r| >= 2 && IsOpen(r[0]) && IsClose(r[|r| - 1])
    requires OuterSpan(r, IsOpen, IsClose) == r
    ensures CleanJsonResponse(r) == r
  {
    BracketedUnfenced(r);
  }

  lemma SpanBracketed(s: string)
    requires OpensBeforeCloses(s, IsOpen, IsClose)
    ensures var r := OuterSpan(s, IsOpen, IsClose);
      |r| >= 2 && IsOpen(r[0]) && IsClose(r[|r| - 1])
  {
    OuterSpanFound(s, IsOpen, IsClose);
    SliceEnds(s, FindFirst(s, IsOpen).value, FindLast(s, IsClose).value, OuterSpan(s, IsOpen, IsClose));
  }

  lemma SliceEnds(s: string, i: nat, j: nat, r: string)
    requires i < j < |s| && IsOpen(s[i]) && IsClose(s[j]) && r == s[i..j + 1]
    ensures |r| >= 2 && IsOpen(r[0]) && IsClose(r[|r| - 1])
  {
    assert r[0] == s[i] && r[|r| - 1] == s[j];
  }

  lemma BracketedUnfenced(r: string)
    requires |r| >= 2 && IsOpen(r[0]) && IsClose(r[|r| - 1])
    ensures StripFence(r) == r
  {
    TrimOfTrimmed(r);
    assert !StartsWith(r, Fence) by {
      assert r[0] != Fence[0];
    }
    UnfencedOnlyTrimmed(r);
  }
}
