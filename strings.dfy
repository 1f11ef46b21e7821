/** The Kotlin string operations the modelled code relies on: trim, lines,
    split, joinToString, replace, prefix/suffix tests and ASCII case mapping. */
module Strings {
  import opened Wrappers

  /** Characters Kotlin's isWhitespace accepts on the JVM: the controls tab
      to carriage return and the four separators 0x1C to 0x1F, and the Unicode
      space, line and paragraph separators, no-break spaces included. */
  predicate IsWhitespace(c: char) {
    c == ' ' || ('\t' <= c <= '\r') || ('\U{001C}' <= c <= '\U{001F}')
    || c == '\U{00A0}' || c == '\U{1680}' || ('\U{2000}' <= c <= '\U{200A}')
    || c == '\U{2028}' || c == '\U{2029}' || c == '\U{202F}' || c == '\U{205F}' || c == '\U{3000}'
  }

  /** Kotlin isBlank: empty or only whitespace. */
  predicate IsBlank(s: string) {
    forall i :: 0 <= i < |s| ==> IsWhitespace(s[i])
  }

  /** No whitespace at either end. */
  predicate IsTrimmed(s: string) {
    s == [] || (!IsWhitespace(s[0]) && !IsWhitespace(s[|s| - 1]))
  }

  /** b occurs as a contiguous piece of a. */
  ghost predicate IsSubstring(b: string, a: string) {
    exists i, j :: 0 <= i <= j <= |a| && a[i..j] == b
  }

  lemma SubstringRefl(a: string)
    ensures IsSubstring(a, a)
  {
    assert a[0..|a|] == a;
  }

  lemma SubstringSlice(a: string, i: int, j: int)
    requires 0 <= i <= j <= |a|
    ensures IsSubstring(a[i..j], a)
  {
  }

  lemma SubstringTrans(c: string, b: string, a: string)
    requires IsSubstring(c, b) && IsSubstring(b, a)
    ensures IsSubstring(c, a)
  {
    var i, j :| 0 <= i <= j <= |b| && b[i..j] == c;
    var k, l :| 0 <= k <= l <= |a| && a[k..l] == b;
    assert |b| == l - k;
    assert c == a[k + i..k + j] by {
      forall t | 0 <= t < j - i ensures c[t] == a[k + i + t] {
        assert c[t] == b[i + t];
      }
    }
  }

  /** A pattern found in a piece of a is found in a. */
  lemma SubstringContains(b: string, a: string, pat: string)
    requires IsSubstring(b, a) && Contains(b, pat)
    ensures Contains(a, pat)
  {
    var i, j :| 0 <= i <= j <= |a| && a[i..j] == b;
    var k :| 0 <= k <= |b| && OccursAt(b, pat, k);
    assert |b| == j - i;
    assert a[i + k..i + k + |pat|] == pat by {
      forall t | 0 <= t < |pat| ensures a[i + k + t] == pat[t] {
        assert pat[t] == b[k + t];
      }
    }
    assert OccursAt(a, pat, i + k);
  }

  /** A piece of a blank string is blank. */
  lemma SubstringBlank(b: string, a: string)
    requires IsSubstring(b, a) && IsBlank(a)
    ensures IsBlank(b)
  {
    var i, j :| 0 <= i <= j <= |a| && a[i..j] == b;
    forall k | 0 <= k < |b| ensures IsWhitespace(b[k]) {
      assert b[k] == a[i + k];
    }
  }

  function TrimStart(s: string): (r: string)
    ensures |r| <= |s| && r == s[|s| - |r|..]
    ensures r == [] || !IsWhitespace(r[0])
    ensures forall i :: 0 <= i < |s| - |r| ==> IsWhitespace(s[i])
  {
    if s != [] && IsWhitespace(s[0]) then TrimStart(s[1..]) else s
  }

  function TrimEnd(s: string): (r: string)
    ensures |r| <= |s| && r == s[..|r|]
    ensures r == [] || !IsWhitespace(r[|r| - 1])
    ensures forall i :: |r| <= i < |s| ==> IsWhitespace(s[i])
  {
    if s != [] && IsWhitespace(s[|s| - 1]) then TrimEnd(s[..|s| - 1]) else s
  }

  /** r is s with the whitespace s[..k] and s[k + |r|..] stripped off. */
  predicate StrippedAt(s: string, k: int, r: string) {
    0 <= k <= |s| - |r| && r == s[k..k + |r|]
    && (forall i :: 0 <= i < k ==> IsWhitespace(s[i]))
    && (forall i :: k + |r| <= i < |s| ==> IsWhitespace(s[i]))
  }

  /** Kotlin trim(): drop leading and trailing whitespace. */
  function Trim(s: string): (r: string)
    ensures IsTrimmed(r)
  {
    var a := TrimStart(s);
    var r := TrimEnd(a);
    StripCompose(s, a, r);
    r
  }

  /** What trim() drops is whitespace at the two ends. */
  lemma TrimStripped(s: string)
    ensures exists k :: StrippedAt(s, k, Trim(s))
  {
    var a := TrimStart(s);
    var r := TrimEnd(a);
    StripCompose(s, a, r);
    assert r == Trim(s);
  }

  /** Stripping the front, then the back, strips both ends. */
  lemma StripCompose(s: string, a: string, r: string)
    requires |a| <= |s| && a == s[|s| - |a|..]
    requires a == [] || !IsWhitespace(a[0])
    requires forall i :: 0 <= i < |s| - |a| ==> IsWhitespace(s[i])
    requires |r| <= |a| && r == a[..|r|]
    requires r == [] || !IsWhitespace(r[|r| - 1])
    requires forall i :: |r| <= i < |a| ==> IsWhitespace(a[i])
    ensures IsTrimmed(r)
    ensures StrippedAt(s, |s| - |a|, r)
  {
    var k := |s| - |a|;
    assert r == s[k..k + |r|];
    forall i | k + |r| <= i < |s| ensures IsWhitespace(s[i]) {
      assert s[i] == a[i - k];
    }
    if r != [] {
      assert r[0] == a[0];
    }
  }

  lemma TrimIsSubstring(s: string)
    ensures IsSubstring(Trim(s), s)
  {
    TrimStripped(s);
    var k :| StrippedAt(s, k, Trim(s));
  }

  lemma TrimEmptyIffBlank(s: string)
    ensures Trim(s) == [] <==> IsBlank(s)
  {
    var r := Trim(s);
    TrimStripped(s);
    var k :| StrippedAt(s, k, r);
    if r != [] {
      assert s[k] == r[0];
    }
  }

  lemma TrimOfTrimmed(s: string)
    requires IsTrimmed(s)
    ensures Trim(s) == s
  {
  }

  lemma TrimIdempotent(s: string)
    ensures Trim(Trim(s)) == Trim(s)
  {
    TrimOfTrimmed(Trim(s));
  }

  /** pat occurs in s starting at index i. */
  predicate OccursAt(s: string, pat: string, i: int) {
    0 <= i && i + |pat| <= |s| && s[i..i + |pat|] == pat
  }

  /** Kotlin contains(pat). */
  predicate Contains(s: string, pat: string) {
    exists i :: 0 <= i <= |s| && OccursAt(s, pat, i)
  }

  /** Kotlin indexOf(pat, from): the first occurrence at or after from. */
  function IndexOfFrom(s: string, pat: string, from: nat): (r: Option<nat>)
    ensures r.Some? ==> (from <= r.value && OccursAt(s, pat, r.value)
                         && forall k :: from <= k < r.value ==> !OccursAt(s, pat, k))
    ensures r.None? ==> forall k :: from <= k ==> !OccursAt(s, pat, k)
    decreases |s| - from
  {
    if from + |pat| > |s| then None
    else if s[from..from + |pat|] == pat then Some(from)
    else IndexOfFrom(s, pat, from + 1)
  }

  function IndexOf(s: string, pat: string): (r: Option<nat>)
    ensures r.Some? <==> Contains(s, pat)
    ensures r.Some? ==> OccursAt(s, pat, r.value) && forall k :: 0 <= k < r.value ==> !OccursAt(s, pat, k)
  {
    IndexOfFrom(s, pat, 0)
  }

  /** Kotlin joinToString(sep). */
  function Join(parts: seq<string>, sep: string): string {
    if |parts| == 0 then []
    else if |parts| == 1 then parts[0]
    else parts[0] + sep + Join(parts[1..], sep)
  }

  /** Kotlin split(sep) with one string delimiter. An empty delimiter splits
      between every character, with an empty piece at both ends. */
  function Split(s: string, sep: string): (r: seq<string>)
    ensures |r| >= 1
  {
    if |sep| == 0 then [[]] + Singletons(s) + [[]] else SplitOn(s, sep)
  }

  /** Split on a non-empty delimiter: leftmost occurrences, no overlaps. */
  function SplitOn(s: string, sep: string): (r: seq<string>)
    requires |sep| > 0
    ensures |r| >= 1
    decreases |s|
  {
    match IndexOf(s, sep)
    case None => [s]
    case Some(i) => [s[..i]] + SplitOn(s[i + |sep|..], sep)
  }

  /** Each character of s as a string of its own. */
  function Singletons(s: string): (r: seq<string>)
    ensures |r| == |s|
  {
    if s == [] then [] else [[s[0]]] + Singletons(s[1..])
  }

  /** Kotlin lines(), on '\n' only. */
  function Lines(s: string): (r: seq<string>)
    ensures |r| >= 1
  {
    Split(s, "\n")
  }

  lemma Cut3(s: string, i: int, j: int)
    requires 0 <= i <= j <= |s|
    ensures s == s[..i] + s[i..j] + s[j..]
  {
  }

  lemma JoinCons(a: string, t: seq<string>, sep: string)
    requires |t| >= 1
    ensures Join([a] + t, sep) == a + sep + Join(t, sep)
  {
    assert ([a] + t)[1..] == t;
  }

  lemma {:induction false} SplitJoin(s: string, sep: string)
    requires |sep| > 0
    ensures Join(SplitOn(s, sep), sep) == s
    decreases |s|
  {
    var r := IndexOf(s, sep);
    if r.Some? {
      var i := r.value;
      var rest := s[i + |sep|..];
      assert s[i..i + |sep|] == sep;
      calc {
        Join(SplitOn(s, sep), sep);
        Join([s[..i]] + SplitOn(rest, sep), sep);
        { JoinCons(s[..i], SplitOn(rest, sep), sep); }
        s[..i] + sep + Join(SplitOn(rest, sep), sep);
        { SplitJoin(rest, sep); }
        s[..i] + sep + rest;
        { Cut3(s, i, i + |sep|); }
        s;
      }
    }
  }

  /** An occurrence inside a prefix is an occurrence in the whole string. */
  lemma OccursInPrefix(s: string, pat: string, n: int, k: int)
    requires 0 <= n <= |s|
    ensures OccursAt(s[..n], pat, k) ==> OccursAt(s, pat, k)
  {
    if OccursAt(s[..n], pat, k) {
      assert s[..n][k..k + |pat|] == s[k..k + |pat|];
    }
  }

  /** A one-character pattern occurs exactly where that character stands. */
  lemma OccursChar(s: string, c: char, k: int)
    ensures OccursAt(s, [c], k) <==> 0 <= k < |s| && s[k] == c
  {
    if 0 <= k < |s| {
      assert s[k..k + 1] == [s[k]];
    }
  }

  lemma ContainsChar(s: string, c: char)
    ensures Contains(s, [c]) <==> c in s
  {
    if c in s {
      var k :| 0 <= k < |s| && s[k] == c;
      OccursChar(s, c, k);
    }
    if Contains(s, [c]) {
      var k :| 0 <= k <= |s| && OccursAt(s, [c], k);
      OccursChar(s, c, k);
    }
  }

  lemma {:induction false} SplitPartsFree(s: string, sep: string)
    requires |sep| > 0
    ensures forall p :: p in SplitOn(s, sep) ==> !Contains(p, sep)
    decreases |s|
  {
    match IndexOf(s, sep)
    case None =>
    case Some(i) =>
      SplitPartsFree(s[i + |sep|..], sep);
      var head := s[..i];
      forall k | 0 <= k <= |head| ensures !OccursAt(head, sep, k) {
        OccursInPrefix(s, sep, i, k);
      }
  }

  lemma {:induction false} SplitOnPartsSubstrings(s: string, sep: string)
    requires |sep| > 0
    ensures forall p :: p in SplitOn(s, sep) ==> IsSubstring(p, s)
    decreases |s|
  {
    match IndexOf(s, sep)
    case None =>
      SubstringRefl(s);
    case Some(i) =>
      var rest := s[i + |sep|..];
      var tail := SplitOn(rest, sep);
      SubstringSlice(s, 0, i);
      SubstringSlice(s, i + |sep|, |s|);
      SplitOnPartsSubstrings(rest, sep);
      PartsOfPieceSubstrings(tail, rest, s);
      assert SplitOn(s, sep) == [s[..i]] + tail;
  }

  lemma PartsOfPieceSubstrings(parts: seq<string>, piece: string, s: string)
    requires IsSubstring(piece, s) && forall p :: p in parts ==> IsSubstring(p, piece)
    ensures forall p :: p in parts ==> IsSubstring(p, s)
  {
    forall p | p in parts ensures IsSubstring(p, s) {
      SubstringTrans(p, piece, s);
    }
  }

  lemma {:induction false} SingletonsSubstrings(s: string)
    ensures forall p :: p in Singletons(s) ==> IsSubstring(p, s)
  {
    if s != [] {
      SingletonsSubstrings(s[1..]);
      SubstringSlice(s, 0, 1);
      SubstringSlice(s, 1, |s|);
      forall p | p in Singletons(s[1..]) ensures IsSubstring(p, s) {
        SubstringTrans(p, s[1..], s);
      }
    }
  }

  /** Every piece Kotlin's split returns is a piece of the input. */
  lemma SplitPartsSubstrings(s: string, sep: string)
    ensures forall p :: p in Split(s, sep) ==> IsSubstring(p, s)
  {
    if |sep| == 0 {
      SingletonsSubstrings(s);
      assert s[0..0] == [];
    } else {
      SplitOnPartsSubstrings(s, sep);
    }
  }

  /** A one-character separator that no part contains splits its own join back
      into the parts. */
  lemma {:induction false} JoinSplit(parts: seq<string>, c: char)
    requires |parts| >= 1
    requires forall p :: p in parts ==> c !in p
    ensures SplitOn(Join(parts, [c]), [c]) == parts
    decreases |parts|
  {
    var s := Join(parts, [c]);
    var head := parts[0];
    if |parts| == 1 {
      AbsentFirstChar(s, [c]);
    } else {
      var rest := Join(parts[1..], [c]);
      assert s == head + [c] + rest;
      OccursChar(s, c, |head|);
      assert parts[0] in parts;
      forall k | 0 <= k < |head| ensures !OccursAt(s, [c], k) {
        OccursChar(s, c, k);
        assert s[k] == head[k] && head[k] in head;
      }
      assert IndexOf(s, [c]) == Some(|head|);
      assert s[..|head|] == head && s[|head| + 1..] == rest;
      calc {
        SplitOn(s, [c]);
        [head] + SplitOn(rest, [c]);
        { JoinSplit(parts[1..], c); }
        [head] + parts[1..];
        parts;
      }
    }
  }

  /** map { it.trim() } followed by filter { it.isNotEmpty() }. */
  function NonEmptyTrimmed(parts: seq<string>): (r: seq<string>)
    ensures forall i :: 0 <= i < |r| ==> r[i] != [] && IsTrimmed(r[i])
  {
    if parts == [] then [] else TrimmedPiece(parts[0]) + NonEmptyTrimmed(parts[1..])
  }

  /** The trim of part as a list of at most one non-empty string. */
  function TrimmedPiece(part: string): (r: seq<string>)
    ensures forall i :: 0 <= i < |r| ==> r[i] != [] && IsTrimmed(r[i])
  {
    var t := Trim(part);
    if t == [] then [] else [t]
  }

  /** Some part is mapped to x by f. */
  predicate SomeImageIs(parts: seq<string>, f: string -> string, x: string) {
    exists j :: 0 <= j < |parts| && f(parts[j]) == x
  }

  lemma SomeImageIsCons(parts: seq<string>, f: string -> string, x: string)
    requires parts != []
    ensures SomeImageIs(parts, f, x) <==> f(parts[0]) == x || SomeImageIs(parts[1..], f, x)
  {
    var tail := parts[1..];
    if SomeImageIs(parts, f, x) {
      var j :| 0 <= j < |parts| && f(parts[j]) == x;
      if j > 0 {
        assert tail[j - 1] == parts[j];
      }
    }
    if SomeImageIs(tail, f, x) {
      var j :| 0 <= j < |tail| && f(tail[j]) == x;
      assert parts[j + 1] == tail[j];
    }
  }

  /** The items are exactly the non-empty trims of the parts. */
  lemma {:induction false} NonEmptyTrimmedMember(parts: seq<string>, x: string)
    ensures x in NonEmptyTrimmed(parts) <==>
      x != [] && exists j :: 0 <= j < |parts| && Trim(parts[j]) == x
  {
    if parts == [] {
    } else {
      NonEmptyTrimmedMember(parts[1..], x);
      SomeImageIsCons(parts, Trim, x);
      assert NonEmptyTrimmed(parts) == TrimmedPiece(parts[0]) + NonEmptyTrimmed(parts[1..]);
    }
  }

  /** Trimming and filtering one more part appends its trim, if non-empty. */
  lemma {:induction false} NonEmptyTrimmedSnoc(parts: seq<string>, x: string)
    ensures NonEmptyTrimmed(parts + [x]) == NonEmptyTrimmed(parts) + TrimmedPiece(x)
  {
    if parts == [] {
      assert [] + [x] == [x];
    } else {
      assert (parts + [x])[0] == parts[0];
      assert (parts + [x])[1..] == parts[1..] + [x];
      calc {
        NonEmptyTrimmed(parts + [x]);
        TrimmedPiece(parts[0]) + NonEmptyTrimmed(parts[1..] + [x]);
        { NonEmptyTrimmedSnoc(parts[1..], x); }
        TrimmedPiece(parts[0]) + (NonEmptyTrimmed(parts[1..]) + TrimmedPiece(x));
      }
    }
  }


  /** Searching for a one-character pattern past a different leading
      character finds the same positions, shifted by one. */
  lemma {:induction false} IndexOfFromCons(c: char, t: string, d: char, k: nat)
    requires c != d
    ensures IndexOfFrom([c] + t, [d], k + 1) ==
      match IndexOfFrom(t, [d], k) case None => None case Some(i) => Some(i + 1)
    decreases |t| - k
  {
    if k + 1 <= |t| {
      assert ([c] + t)[k + 1..k + 2] == t[k..k + 1];
      IndexOfFromCons(c, t, d, k + 1);
    }
  }

  /** Appending a character only matters when nothing was found before it. */
  lemma {:induction false} IndexOfFromSnoc(t: string, c: char, d: char, k: nat)
    requires k <= |t|
    ensures IndexOfFrom(t + [c], [d], k) ==
      match IndexOfFrom(t, [d], k)
      case Some(i) => Some(i)
      case None => if c == d then Some(|t|) else None
    decreases |t| - k
  {
    if k < |t| {
      assert (t + [c])[k..k + 1] == t[k..k + 1];
      IndexOfFromSnoc(t, c, d, k + 1);
    } else {
      assert (t + [c])[k..k + 1] == [c];
    }
  }

  /** The lines with one more character at the front of the first one. */
  function PrependFirst(c: char, r: seq<string>): (e: seq<string>)
    requires |r| >= 1
    ensures |e| == |r| && e[0] == [c] + r[0]
    ensures forall j :: 1 <= j < |r| ==> e[j] == r[j]
  {
    [[c] + r[0]] + r[1..]
  }

  /** Lines after a leading character that is not the separator: the
      character joins the first line. */
  lemma SplitOnConsOther(c: char, t: string, d: char)
    requires c != d
    ensures SplitOn([c] + t, [d]) == PrependFirst(c, SplitOn(t, [d]))
  {
    var s := [c] + t;
    assert s[0..1] == [c];
    IndexOfFromCons(c, t, d, 0);
    match IndexOf(t, [d])
    case None =>
      assert IndexOf(s, [d]).None?;
      assert SplitOn(s, [d]) == [s];
    case Some(i) =>
      assert IndexOf(s, [d]) == Some(i + 1);
      var rest := SplitOn(t[i + 1..], [d]);
      assert s[i + 2..] == t[i + 1..];
      assert SplitOn(s, [d]) == [s[..i + 1]] + rest;
      assert s[..i + 1] == [c] + t[..i];
      assert SplitOn(t, [d]) == [t[..i]] + rest;
      PrependFirstCons(c, t[..i], rest);
  }

  lemma PrependFirstCons(c: char, x: string, rest: seq<string>)
    ensures PrependFirst(c, [x] + rest) == [[c] + x] + rest
  {
    assert ([x] + rest)[1..] == rest;
  }

  /** A leading separator gives an empty first line. */
  lemma SplitOnConsSep(t: string, d: char)
    ensures SplitOn([d] + t, [d]) == [[]] + SplitOn(t, [d])
  {
    var s := [d] + t;
    assert s[0..1] == [d];
    assert s[1..] == t;
  }

  /** The lines with one more character at the end of the last one. */
  function ExtendLast(r: seq<string>, c: char): (e: seq<string>)
    requires |r| >= 1
    ensures |e| == |r| && e[|r| - 1] == r[|r| - 1] + [c]
    ensures forall j :: 0 <= j < |r| - 1 ==> e[j] == r[j]
  {
    r[..|r| - 1] + [r[|r| - 1] + [c]]
  }

  lemma ExtendLastCons(x: string, q: seq<string>, c: char)
    requires |q| >= 1
    ensures [x] + ExtendLast(q, c) == ExtendLast([x] + q, c)
  {
  }

  /** Appending a character that is not the separator extends the last line. */
  lemma {:induction false} SplitOnSnocOther(t: string, c: char, d: char)
    requires c != d
    ensures SplitOn(t + [c], [d]) == ExtendLast(SplitOn(t, [d]), c)
    decreases |t|
  {
    var s := t + [c];
    IndexOfFromSnoc(t, c, d, 0);
    match IndexOf(t, [d])
    case None =>
    case Some(i) =>
      var rest := t[i + 1..];
      assert s[..i] == t[..i];
      assert s[i + 1..] == rest + [c];
      assert SplitOn(s, [d]) == [t[..i]] + SplitOn(rest + [c], [d]);
      assert SplitOn(t, [d]) == [t[..i]] + SplitOn(rest, [d]);
      SplitOnSnocOther(rest, c, d);
      ExtendLastCons(t[..i], SplitOn(rest, [d]), c);
  }

  /** Appending the separator adds an empty last line. */
  lemma {:induction false} SplitOnSnocSep(t: string, d: char)
    ensures SplitOn(t + [d], [d]) == SplitOn(t, [d]) + [[]]
    decreases |t|
  {
    var s := t + [d];
    IndexOfFromSnoc(t, d, d, 0);
    match IndexOf(t, [d])
    case None =>
      assert IndexOf(s, [d]) == Some(|t|);
      assert s[..|t|] == t && s[|t| + 1..] == [];
      assert SplitOn(s, [d]) == [t] + SplitOn([], [d]);
    case Some(i) =>
      var rest := t[i + 1..];
      assert IndexOf(s, [d]) == Some(i);
      assert s[..i] == t[..i];
      assert s[i + 1..] == rest + [d];
      assert SplitOn(s, [d]) == [t[..i]] + SplitOn(rest + [d], [d]);
      assert SplitOn(t, [d]) == [t[..i]] + SplitOn(rest, [d]);
      SplitOnSnocSep(rest, d);
  }

  /** Trim ignores a whitespace character at the front ... */
  lemma TrimConsWhitespace(w: char, x: string)
    requires IsWhitespace(w)
    ensures Trim([w] + x) == Trim(x)
  {
    assert ([w] + x)[1..] == x;
  }

  lemma {:induction false} TrimStartBlank(x: string)
    ensures TrimStart(x) == [] <==> IsBlank(x)
  {
    if x != [] && IsWhitespace(x[0]) {
      TrimStartBlank(x[1..]);
      assert forall i :: 1 <= i < |x| ==> x[i] == x[1..][i - 1];
    }
  }

  lemma {:induction false} TrimStartSnoc(x: string, w: char)
    requires IsWhitespace(w)
    ensures TrimStart(x + [w]) == if IsBlank(x) then [] else TrimStart(x) + [w]
  {
    if x != [] {
      assert (x + [w])[1..] == x[1..] + [w];
      if IsWhitespace(x[0]) {
        TrimStartSnoc(x[1..], w);
      }
    } else {
      assert ([w])[1..] == [];
    }
  }

  /** ... and at the back. */
  lemma TrimSnocWhitespace(x: string, w: char)
    requires IsWhitespace(w)
    ensures Trim(x + [w]) == Trim(x)
  {
    TrimStartSnoc(x, w);
    TrimStartBlank(x);
    if !IsBlank(x) {
      var a := TrimStart(x);
      assert (a + [w])[..|a|] == a;
    }
  }

  /** Kotlin split(sep, limit = 2): cut at the first occurrence only. */
  function SplitFirst(s: string, sep: string): (r: seq<string>)
    ensures 1 <= |r| <= 2
    ensures |r| == 2 <==> Contains(s, sep)
  {
    match IndexOf(s, sep)
    case None => [s]
    case Some(i) => [s[..i], s[i + |sep|..]]
  }

  function StartsWith(s: string, p: string): bool {
    |p| <= |s| && s[..|p|] == p
  }

  function EndsWith(s: string, p: string): bool {
    |p| <= |s| && s[|s| - |p|..] == p
  }

  function RemovePrefix(s: string, p: string): (r: string)
    ensures StartsWith(s, p) ==> s == p + r
    ensures !StartsWith(s, p) ==> r == s
  {
    if StartsWith(s, p) then s[|p|..] else s
  }

  function RemoveSuffix(s: string, p: string): (r: string)
    ensures EndsWith(s, p) ==> s == r + p
    ensures !EndsWith(s, p) ==> r == s
  {
    if EndsWith(s, p) then s[..|s| - |p|] else s
  }

  lemma PrefixOfConcat(a: string, b: string)
    ensures StartsWith(a + b, a) && RemovePrefix(a + b, a) == b
  {
    assert (a + b)[..|a|] == a;
    assert (a + b)[|a|..] == b;
  }

  lemma SuffixOfConcat(a: string, b: string)
    ensures EndsWith(a + b, b) && RemoveSuffix(a + b, b) == a
  {
    assert (a + b)[|a|..] == b;
    assert (a + b)[..|a|] == a;
  }

  /** Kotlin replace(old, new) for a non-empty old: every occurrence, left to
      right, without rescanning the replacement. */
  function Replace(s: string, pat: string, rep: string): string
    requires |pat| > 0
    decreases |s|
  {
    match IndexOf(s, pat)
    case None => s
    case Some(i) => s[..i] + rep + Replace(s[i + |pat|..], pat, rep)
  }

  lemma ReplaceAbsent(s: string, pat: string, rep: string)
    requires |pat| > 0 && !Contains(s, pat)
    ensures Replace(s, pat, rep) == s
  {
  }

  /** A pattern that starts with a character s lacks never occurs in s. */
  lemma AbsentFirstChar(s: string, pat: string)
    requires |pat| > 0 && pat[0] !in s
    ensures !Contains(s, pat)
  {
    forall k | 0 <= k <= |s| ensures !OccursAt(s, pat, k) {
      if k < |s| {
        assert s[k] in s;
      }
    }
  }

  function LowerChar(c: char): char {
    if 'A' <= c <= 'Z' then (c as int + 32) as char else c
  }

  function UpperChar(c: char): char {
    if 'a' <= c <= 'z' then (c as int - 32) as char else c
  }

  /** Kotlin lowercase(), ASCII letters only. */
  function Lower(s: string): (r: string)
    ensures |r| == |s|
    ensures forall i :: 0 <= i < |s| ==> r[i] == LowerChar(s[i])
  {
    seq(|s|, i requires 0 <= i < |s| => LowerChar(s[i]))
  }

  /** Kotlin uppercase(), ASCII letters only. */
  function Upper(s: string): (r: string)
    ensures |r| == |s|
    ensures forall i :: 0 <= i < |s| ==> r[i] == UpperChar(s[i])
  {
    seq(|s|, i requires 0 <= i < |s| => UpperChar(s[i]))
  }

  /** Kotlin endsWith(p, ignoreCase = true), ASCII letters only. */
  function EndsWithIgnoreCase(s: string, p: string): bool {
    EndsWith(Lower(s), Lower(p))
  }

  /** Kotlin indexOfFirst(p): the first index whose character satisfies p. */
  function FindFirst(s: string, p: char -> bool): (r: Option<nat>)
    ensures r.Some? ==> r.value < |s| && p(s[r.value])
    ensures forall k :: 0 <= k < |s| && (r.None? || k < r.value) ==> !p(s[k])
  {
    if s == [] then None
    else if p(s[0]) then Some(0)
    else match FindFirst(s[1..], p)
      case None => None
      case Some(i) => Some(i + 1)
  }

  /** Kotlin indexOfLast(p): the last index whose character satisfies p. */
  function FindLast(s: string, p: char -> bool): (r: Option<nat>)
    ensures r.Some? ==> r.value < |s| && p(s[r.value])
    ensures forall k :: 0 <= k < |s| && (r.None? || k > r.value) ==> !p(s[k])
  {
    if s == [] then None
    else if p(s[|s| - 1]) then Some(|s| - 1)
    else FindLast(s[..|s| - 1], p)
  }

  /** Kotlin substringAfterLast(c): the text after the last c, or all of s. */
  function AfterLast(s: string, c: char): (r: string)
    ensures c !in r
    ensures EndsWith(s, r)
    ensures c !in s ==> r == s
    ensures c in s ==> |r| < |s| && s[|s| - |r| - 1] == c
  {
    match FindLast(s, x => x == c)
    case None => s
    case Some(i) =>
      var r := s[i + 1..];
      assert forall k :: 0 <= k < |r| ==> r[k] == s[i + 1 + k];
      r
  }

  /** The span from the first character satisfying isOpen to the last one
      satisfying isClose when the first comes before the last, and s otherwise. */
  function OuterSpan(s: string, isOpen: char -> bool, isClose: char -> bool): (r: string)
    ensures IsSubstring(r, s)
  {
    match (FindFirst(s, isOpen), FindLast(s, isClose))
    case (Some(i), Some(j)) =>
      if i < j then
        SubstringSlice(s, i, j + 1);
        s[i..j + 1]
      else
        SubstringRefl(s);
        s
    case _ =>
      SubstringRefl(s);
      s
  }

  /** Some opening character stands before some closing one. */
  predicate OpensBeforeCloses(s: string, isOpen: char -> bool, isClose: char -> bool) {
    exists i, j :: 0 <= i < j < |s| && isOpen(s[i]) && isClose(s[j])
  }

  /** The first opening character lies before the last closing one. */
  predicate FirstOpenBeforeLastClose(s: string, isOpen: char -> bool, isClose: char -> bool) {
    FindFirst(s, isOpen).Some? && FindLast(s, isClose).Some?
    && FindFirst(s, isOpen).value < FindLast(s, isClose).value
  }

  lemma FirstOpenBeforeLastCloseIff(s: string, isOpen: char -> bool, isClose: char -> bool)
    ensures FirstOpenBeforeLastClose(s, isOpen, isClose) <==> OpensBeforeCloses(s, isOpen, isClose)
  {
    var f := FindFirst(s, isOpen);
    var l := FindLast(s, isClose);
    if FirstOpenBeforeLastClose(s, isOpen, isClose) {
      assert 0 <= f.value < l.value < |s| && isOpen(s[f.value]) && isClose(s[l.value]);
    }
    if OpensBeforeCloses(s, isOpen, isClose) {
      var i, j :| 0 <= i < j < |s| && isOpen(s[i]) && isClose(s[j]);
      assert f.Some? && f.value <= i;
      assert l.Some? && j <= l.value;
    }
  }

  /** When an opening character comes before a closing one, the span runs
      from the first opening character to the last closing one. */
  lemma OuterSpanFound(s: string, isOpen: char -> bool, isClose: char -> bool)
    requires OpensBeforeCloses(s, isOpen, isClose)
    ensures FindFirst(s, isOpen).Some? && FindLast(s, isClose).Some?
    ensures FindFirst(s, isOpen).value < FindLast(s, isClose).value
    ensures OuterSpan(s, isOpen, isClose) == s[FindFirst(s, isOpen).value..FindLast(s, isClose).value + 1]
  {
    FirstOpenBeforeLastCloseIff(s, isOpen, isClose);
  }

  /** s[i] is the first opening character and s[j], after it, the last
      closing one. */
  predicate OuterPair(s: string, isOpen: char -> bool, isClose: char -> bool, i: int, j: int) {
    0 <= i < j < |s| && isOpen(s[i]) && isClose(s[j])
    && (forall k :: 0 <= k < i ==> !isOpen(s[k]))
    && (forall k :: j < k < |s| ==> !isClose(s[k]))
  }

  /** The span, when there is one, runs from the first opening character to the
      last closing one; without one the text is returned unchanged. */
  lemma OuterSpanCases(s: string, isOpen: char -> bool, isClose: char -> bool)
    ensures OpensBeforeCloses(s, isOpen, isClose) ==>
      exists i, j :: OuterPair(s, isOpen, isClose, i, j) && OuterSpan(s, isOpen, isClose) == s[i..j + 1]
    ensures !OpensBeforeCloses(s, isOpen, isClose) ==> OuterSpan(s, isOpen, isClose) == s
  {
    if OpensBeforeCloses(s, isOpen, isClose) {
      OuterSpanFound(s, isOpen, isClose);
      var i := FindFirst(s, isOpen).value;
      var j := FindLast(s, isClose).value;
      assert OuterPair(s, isOpen, isClose, i, j);
    } else {
      FirstOpenBeforeLastCloseIff(s, isOpen, isClose);
    }
  }

  /** Extracting the span a second time changes nothing. */
  lemma OuterSpanIdempotent(s: string, isOpen: char -> bool, isClose: char -> bool)
    ensures OuterSpan(OuterSpan(s, isOpen, isClose), isOpen, isClose) == OuterSpan(s, isOpen, isClose)
  {
    var r := OuterSpan(s, isOpen, isClose);
    if r != s {
      var i := FindFirst(s, isOpen).value;
      var j := FindLast(s, isClose).value;
      assert r == s[i..j + 1];
      assert isOpen(r[0]) && isClose(r[|r| - 1]);
      assert FindFirst(r, isOpen) == Some(0);
      assert FindLast(r, isClose) == Some(|r| - 1);
      assert r[0..|r|] == r;
    }
  }

  /** An occurrence in a + b that lies wholly inside one part is an occurrence
      in that part. */
  lemma ConcatOccurrence(a: string, b: string, pat: string, k: int)
    ensures OccursAt(a + b, pat, k) && k + |pat| <= |a| ==> OccursAt(a, pat, k)
    ensures OccursAt(a + b, pat, k) && |a| <= k ==> OccursAt(b, pat, k - |a|)
  {
    var s := a + b;
    if OccursAt(s, pat, k) && k + |pat| <= |a| {
      assert s[k..k + |pat|] == a[k..k + |pat|];
    }
    if OccursAt(s, pat, k) && |a| <= k {
      assert s[k..k + |pat|] == b[k - |a|..k - |a| + |pat|];
    }
  }

  /** Position p inside an occurrence at k holds the pattern's character p - k. */
  lemma OccurrenceCovers(s: string, pat: string, k: int, p: int)
    ensures OccursAt(s, pat, k) && k <= p < k + |pat| ==> pat[p - k] == s[p]
  {
    if OccursAt(s, pat, k) && k <= p < k + |pat| {
      assert s[k..k + |pat|][p - k] == s[p];
    }
  }

  /** A run of one repeated character preceded by that character also occurs
      one position earlier. */
  lemma RunExtendsLeft(s: string, pat: string, i: int)
    requires |pat| > 0 && forall k :: 0 <= k < |pat| ==> pat[k] == pat[0]
    ensures OccursAt(s, pat, i) && 0 < i && s[i - 1] == pat[0] ==> OccursAt(s, pat, i - 1)
  {
    if OccursAt(s, pat, i) && 0 < i && s[i - 1] == pat[0] {
      forall t | 0 <= t < |pat| ensures s[i - 1 + t] == pat[t] {
        if t > 0 {
          assert s[i - 1 + t] == s[i..i + |pat|][t - 1];
        }
      }
      assert s[i - 1..i - 1 + |pat|] == pat;
    }
  }

  /** Two run-free strings stay run-free when joined, unless the first ends in
      the repeated character. */
  lemma RunFreeSeam(a: string, b: string, pat: string)
    requires |pat| > 0 && forall k :: 0 <= k < |pat| ==> pat[k] == pat[0]
    requires !Contains(a, pat) && !Contains(b, pat)
    requires a == [] || a[|a| - 1] != pat[0]
    ensures !Contains(a + b, pat)
  {
    forall k | 0 <= k <= |a + b| ensures !OccursAt(a + b, pat, k) {
      ConcatOccurrence(a, b, pat, k);
      OccurrenceCovers(a + b, pat, k, |a| - 1);
    }
  }

  /** One step of the removal: the text before the leftmost run, then the
      removal applied to the rest. */
  lemma RemoveRunStep(s: string, pat: string, i: nat)
    requires |pat| > 0 && forall k :: 0 <= k < |pat| ==> pat[k] == pat[0]
    requires IndexOf(s, pat) == Some(i)
    requires !Contains(Replace(s[i + |pat|..], pat, ""), pat)
    ensures !Contains(Replace(s, pat, ""), pat)
  {
    var before := s[..i];
    RunExtendsLeft(s, pat, i);
    forall k | 0 <= k <= |before| ensures !OccursAt(before, pat, k) {
      OccursInPrefix(s, pat, i, k);
    }
    var tail := Replace(s[i + |pat|..], pat, "");
    assert Replace(s, pat, "") == before + tail by {
      assert Replace(s, pat, "") == before + "" + tail;
      assert before + "" == before;
    }
    RunFreeSeam(before, tail, pat);
  }

  /** Removing every occurrence of a run of one repeated character leaves no
      run behind: the text before the leftmost occurrence cannot end in that
      character, so no new run forms at a seam. */
  lemma {:induction false} RemoveRunLeavesNone(s: string, pat: string)
    requires |pat| > 0 && forall k :: 0 <= k < |pat| ==> pat[k] == pat[0]
    ensures !Contains(Replace(s, pat, ""), pat)
    decreases |s|
  {
    match IndexOf(s, pat)
    case None =>
      ReplaceAbsent(s, pat, "");
    case Some(i) =>
      var rest := s[i + |pat|..];
      RemoveRunLeavesNone(rest, pat);
      RemoveRunStep(s, pat, i);
  }

  /** An occurrence in a + [d] + b of a pattern without d lies in a or in b. */
  lemma SeamContains(a: string, d: char, b: string, pat: string)
    requires d !in pat
    ensures Contains(a + [d] + b, pat) ==> Contains(a, pat) || Contains(b, pat)
  {
    var s := a + [d] + b;
    if Contains(s, pat) {
      var k :| 0 <= k <= |s| && OccursAt(s, pat, k);
      assert s == a + ([d] + b);
      ConcatOccurrence(a, [d] + b, pat, k);
      OccurrenceCovers(s, pat, k, |a|);
      if |a| + 1 <= k {
        ConcatOccurrence([d], b, pat, k - |a|);
      }
    }
  }

  /** Joining pieces free of a pattern with a separator character the pattern
      lacks produces no occurrence. */
  lemma {:induction false} JoinAvoids(parts: seq<string>, d: char, pat: string)
    requires |pat| > 0 && d !in pat
    requires forall i :: 0 <= i < |parts| ==> !Contains(parts[i], pat)
    ensures !Contains(Join(parts, [d]), pat)
  {
    if |parts| > 1 {
      JoinAvoids(parts[1..], d, pat);
      SeamContains(parts[0], d, Join(parts[1..], [d]), pat);
    }
  }

  /** A character that no part holds and that is not the separator is not in
      the joined text. */
  lemma JoinLacksChar(parts: seq<string>, d: char, c: char)
    requires c != d
    requires forall i :: 0 <= i < |parts| ==> c !in parts[i]
    ensures c !in Join(parts, [d])
  {
    forall i | 0 <= i < |parts| ensures !Contains(parts[i], [c]) {
      ContainsChar(parts[i], c);
    }
    JoinAvoids(parts, d, [c]);
    ContainsChar(Join(parts, [d]), c);
  }

  /** Joining keeps the first part at the front, so a non-blank first part
      makes the whole text non-blank. */
  lemma JoinStartsWithFirst(parts: seq<string>, sep: string)
    requires |parts| >= 1
    ensures StartsWith(Join(parts, sep), parts[0])
  {
    if |parts| > 1 {
      assert Join(parts, sep) == parts[0] + (sep + Join(parts[1..], sep));
      PrefixOfConcat(parts[0], sep + Join(parts[1..], sep));
    }
  }

  lemma NotBlankJoin(parts: seq<string>, sep: string)
    requires |parts| >= 1 && !IsBlank(parts[0])
    ensures !IsBlank(Join(parts, sep))
  {
    JoinStartsWithFirst(parts, sep);
    var k :| 0 <= k < |parts[0]| && !IsWhitespace(parts[0][k]);
    assert Join(parts, sep)[k] == parts[0][k];
  }

  lemma Assoc<T>(a: seq<T>, b: seq<T>, c: seq<T>)
    ensures (a + b) + c == a + (b + c)
  {
  }

  /** Kotlin map(f). */
  function MapSeq<A, B>(s: seq<A>, f: A -> B): (r: seq<B>)
    ensures |r| == |s|
    ensures forall i :: 0 <= i < |s| ==> r[i] == f(s[i])
  {
    seq(|s|, i requires 0 <= i < |s| => f(s[i]))
  }

  /** Mapping a prefix one element longer appends that element's image. */
  lemma MapSeqPrefixStep<A, B>(s: seq<A>, j: int, f: A -> B)
    requires 0 <= j < |s|
    ensures MapSeq(s[..j + 1], f) == MapSeq(s[..j], f) + [f(s[j])]
  {
    var r := MapSeq(s[..j + 1], f);
    var d := MapSeq(s[..j], f);
    forall i | 0 <= i < |r| ensures r[i] == (d + [f(s[j])])[i] {
      if i < j {
        assert s[..j + 1][i] == s[..j][i];
      }
    }
  }

  /** Kotlin filter(p). */
  function Filter<T>(s: seq<T>, p: T -> bool): (r: seq<T>)
    ensures |r| <= |s|
    ensures forall i :: 0 <= i < |r| ==> p(r[i]) && r[i] in s
    ensures forall i :: 0 <= i < |s| && p(s[i]) ==> s[i] in r
  {
    if s == [] then []
    else (if p(s[0]) then [s[0]] else []) + Filter(s[1..], p)
  }

  /** Kotlin mapNotNull(f): the present results, in order. */
  function MapNotNull<A, B>(s: seq<A>, f: A -> Option<B>): (r: seq<B>)
    ensures |r| <= |s|
  {
    if s == [] then []
    else (if f(s[0]).Some? then [f(s[0]).value] else []) + MapNotNull(s[1..], f)
  }

  /** Every result of mapNotNull is the answer for some element ... */
  lemma {:induction false} MapNotNullSound<A, B>(s: seq<A>, f: A -> Option<B>, y: B)
    requires y in MapNotNull(s, f)
    ensures exists i :: 0 <= i < |s| && f(s[i]) == Some(y)
  {
    if !(f(s[0]).Some? && y == f(s[0]).value) {
      MapNotNullSound(s[1..], f, y);
      var i :| 0 <= i < |s[1..]| && f(s[1..][i]) == Some(y);
      assert s[i + 1] == s[1..][i];
    }
  }

  /** ... and every present answer is among the results. */
  lemma {:induction false} MapNotNullComplete<A, B>(s: seq<A>, f: A -> Option<B>, i: int)
    requires 0 <= i < |s| && f(s[i]).Some?
    ensures f(s[i]).value in MapNotNull(s, f)
  {
    if i > 0 {
      assert s[1..][i - 1] == s[i];
      MapNotNullComplete(s[1..], f, i - 1);
    }
  }

  /** When f never answers null, mapNotNull drops nothing. */
  lemma {:induction false} MapNotNullAll<A, B>(s: seq<A>, f: A -> Option<B>)
    requires forall i :: 0 <= i < |s| ==> f(s[i]).Some?
    ensures |MapNotNull(s, f)| == |s|
    ensures forall i :: 0 <= i < |s| ==> f(s[i]) == Some(MapNotNull(s, f)[i])
  {
    if s != [] {
      var t := s[1..];
      assert forall i :: 1 <= i < |s| ==> s[i] == t[i - 1];
      MapNotNullAll(t, f);
      assert MapNotNull(s, f) == [f(s[0]).value] + MapNotNull(t, f);
    }
  }

  /** Filtering distributes over concatenation, so the kept elements stay in
      their input order. */
  lemma {:induction false} FilterConcat<T>(s: seq<T>, t: seq<T>, p: T -> bool)
    ensures Filter(s + t, p) == Filter(s, p) + Filter(t, p)
  {
    if s == [] {
      assert s + t == t;
    } else {
      assert (s + t)[0] == s[0] && (s + t)[1..] == s[1..] + t;
      FilterConcat(s[1..], t, p);
    }
  }

  /** Every element that passes is kept as often as it occurs, and no other
      element is kept. */
  lemma {:induction false} FilterMultiset<T>(s: seq<T>, p: T -> bool)
    ensures forall x :: multiset(Filter(s, p))[x] == if p(x) then multiset(s)[x] else 0
  {
    if s != [] {
      FilterMultiset(s[1..], p);
      assert s == [s[0]] + s[1..];
      var head: seq<T> := if p(s[0]) then [s[0]] else [];
      assert Filter(s, p) == head + Filter(s[1..], p);
      assert multiset(Filter(s, p)) == multiset(head) + multiset(Filter(s[1..], p));
      assert multiset(s) == multiset([s[0]]) + multiset(s[1..]);
    }
  }

  /** Filtering with a predicate every element meets keeps everything. */
  lemma {:induction false} FilterKeepsAll<T>(s: seq<T>, p: T -> bool)
    requires forall i :: 0 <= i < |s| ==> p(s[i])
    ensures Filter(s, p) == s
  {
    if s != [] {
      FilterKeepsAll(s[1..], p);
    }
  }

  /** Kotlin distinct(): first occurrences, in order. */
  function Distinct<T(==)>(s: seq<T>): (r: seq<T>)
    ensures forall i :: 0 <= i < |r| ==> r[i] in s
    ensures forall i :: 0 <= i < |s| ==> s[i] in r
    ensures NoDuplicates(r)
    ensures |r| <= |s|
  {
    if s == [] then []
    else
      var d := Distinct(s[..|s| - 1]);
      var x := s[|s| - 1];
      if x in d then d else d + [x]
  }

  /** Dropping repeats keeps exactly the same members. */
  lemma DistinctMembers<T>(s: seq<T>, x: T)
    ensures x in Distinct(s) <==> x in s
  {
    var r := Distinct(s);
    if x in r {
      var i :| 0 <= i < |r| && r[i] == x;
    }
    if x in s {
      var i :| 0 <= i < |s| && s[i] == x;
    }
  }

  predicate NoDuplicates<T(==)>(s: seq<T>) {
    forall i, j :: 0 <= i < j < |s| ==> s[i] != s[j]
  }

  /** Index of the first occurrence of x in s. */
  function FirstIndex<T(==)>(s: seq<T>, x: T): (r: nat)
    requires x in s
    ensures r < |s| && s[r] == x && x !in s[..r]
  {
    if s[0] == x then 0 else 1 + FirstIndex(s[1..], x)
  }

  lemma FirstIndexPrefix<T>(s: seq<T>, t: seq<T>, x: T)
    requires x in s
    ensures FirstIndex(s + t, x) == FirstIndex(s, x)
  {
    if s[0] != x {
      assert (s + t)[1..] == s[1..] + t;
      FirstIndexPrefix(s[1..], t, x);
    }
  }

  /** Distinct keeps elements in the order of their first occurrence. */
  lemma {:induction false} DistinctFirstOccurrenceOrder<T>(s: seq<T>)
    ensures forall i, j :: 0 <= i < j < |Distinct(s)| ==>
      FirstIndex(s, Distinct(s)[i]) < FirstIndex(s, Distinct(s)[j])
  {
    if s != [] {
      var p := s[..|s| - 1];
      var x := s[|s| - 1];
      var d := Distinct(p);
      DistinctFirstOccurrenceOrder(p);
      assert s == p + [x];
      forall y | y in d ensures FirstIndex(s, y) == FirstIndex(p, y) {
        FirstIndexPrefix(p, [x], y);
      }
      if x !in d {
        assert x !in p;
        assert FirstIndex(s, x) == |p| by {
          assert x !in s[..|p|];
        }
      }
    }
  }

  /** Decimal rendering of a natural number, as Kotlin's toString. */
  function NatToString(n: nat): (r: string)
    ensures |r| >= 1
    ensures forall i :: 0 <= i < |r| ==> '0' <= r[i] <= '9'
  {
    var d := ['0' + (n % 10) as char];
    if n < 10 then d else NatToString(n / 10) + d
  }

  /** Kotlin's Boolean toString. */
  function BoolToString(b: bool): string {
    if b then "true" else "false"
  }
  /** Kotlin indentWidth: the number of leading whitespace characters. */
  function IndentWidth(line: string): (r: nat)
    ensures r <= |line|
    ensures r < |line| ==> !IsWhitespace(line[r])
    ensures forall k :: 0 <= k < r ==> IsWhitespace(line[k])
  {
    if line == [] || !IsWhitespace(line[0]) then 0 else 1 + IndentWidth(line[1..])
  }

  /** The least indent width over the lines that are not blank; None when
      every line is blank. */
  function MinIndent(lines: seq<string>): Option<nat> {
    if lines == [] then None
    else
      var rest := MinIndent(lines[1..]);
      if IsBlank(lines[0]) then rest
      else if rest.Some? && rest.value < IndentWidth(lines[0]) then rest
      else Some(IndentWidth(lines[0]))
  }

  lemma {:induction false} MinIndentBelow(lines: seq<string>, i: int)
    requires 0 <= i < |lines| && !IsBlank(lines[i])
    ensures MinIndent(lines).Some? && MinIndent(lines).value <= IndentWidth(lines[i])
  {
    if i > 0 {
      assert lines[1..][i - 1] == lines[i];
      MinIndentBelow(lines[1..], i - 1);
    }
  }

  lemma {:induction false} MinIndentAbove(lines: seq<string>, m: nat)
    requires forall i :: 0 <= i < |lines| && !IsBlank(lines[i]) ==> m <= IndentWidth(lines[i])
    ensures MinIndent(lines).Some? ==> m <= MinIndent(lines).value
  {
    if lines != [] {
      assert forall i :: 1 <= i < |lines| ==> lines[1..][i - 1] == lines[i];
      MinIndentAbove(lines[1..], m);
    }
  }

  /** Kotlin drop(n): the text without its first n characters. */
  function DropChars(s: string, n: nat): (r: string)
    ensures n <= |s| ==> s == s[..n] + r
    ensures n >= |s| ==> r == []
  {
    if n <= |s| then s[n..] else []
  }

  /** The lines trimIndent keeps: every line but a blank first and a blank
      last one, each without the least indent of the non-blank lines. */
  function TrimIndentLines(lines: seq<string>): seq<string>
    requires |lines| >= 1
  {
    var m := if MinIndent(lines).Some? then MinIndent(lines).value else 0;
    var first := if IsBlank(lines[0]) then 1 else 0;
    var last := if first < |lines| && IsBlank(lines[|lines| - 1]) then |lines| - 1 else |lines|;
    MapSeq(lines[first..last], l => DropChars(l, m))
  }

  /** Kotlin trimIndent. */
  function TrimIndent(s: string): string {
    Join(TrimIndentLines(Lines(s)), "\n")
  }

  /** A line made only of spaces. */
  predicate IsMargin(pad: string) {
    forall k :: 0 <= k < |pad| ==> pad[k] == ' '
  }

  /** A margin in front of a line adds exactly its width to the indent. */
  lemma MarginIndent(pad: string, l: string)
    requires IsMargin(pad)
    ensures IsBlank(pad + l) <==> IsBlank(l)
    ensures IndentWidth(pad + l) == |pad| + IndentWidth(l)
  {
    var t := pad + l;
    assert forall k :: 0 <= k < |l| ==> t[|pad| + k] == l[k];
    if !IsBlank(l) {
      var k :| 0 <= k < |l| && !IsWhitespace(l[k]);
      assert !IsWhitespace(t[|pad| + k]);
    }
    var w := IndentWidth(l);
    if w < |l| {
      assert !IsWhitespace(t[|pad| + w]);
    }
    assert forall k :: 0 <= k < |pad| + w ==> IsWhitespace(t[k]);
  }

  /** Lines joined by a single character are split back into the same lines
      when none of them holds that character. */
  lemma LinesOfJoin(parts: seq<string>)
    requires |parts| >= 1 && forall p :: p in parts ==> '\n' !in p
    ensures Lines(Join(parts, "\n")) == parts
  {
    JoinSplit(parts, '\n');
  }

  /** The shape of a Kotlin raw string literal: an empty first line, then the
      body lines behind a common margin, then the closing quotes behind a
      margin of their own. trimIndent gives back the body, provided one body
      line starts right at the margin. */
  lemma TrimIndentLiteralClosed(body: seq<string>, pad: string, close: string)
    requires IsMargin(pad) && IsMargin(close) && |body| >= 1
    requires forall i :: 0 <= i < |body| ==> '\n' !in body[i]
    requires |body[0]| > 0 && !IsWhitespace(body[0][0])
    ensures TrimIndent(Join([""] + MapSeq(body, l => pad + l) + [close], "\n")) == Join(body, "\n")
  {
    var lines := [""] + MapSeq(body, l => pad + l) + [close];
    LiteralBreakFree(body, pad, close, lines);
    LinesOfJoin(lines);
    LiteralMargin(body, pad, close, lines);
    LiteralKept(body, pad, close, lines);
  }

  lemma LiteralBreakFree(body: seq<string>, pad: string, close: string, lines: seq<string>)
    requires IsMargin(pad) && IsMargin(close)
    requires forall i :: 0 <= i < |body| ==> '\n' !in body[i]
    requires lines == [""] + MapSeq(body, l => pad + l) + [close]
    ensures forall p :: p in lines ==> '\n' !in p
  {
    var padded := MapSeq(body, l => pad + l);
    assert forall k :: 0 <= k < |pad| ==> pad[k] != '\n';
    assert forall k :: 0 <= k < |close| ==> close[k] != '\n';
    forall p | p in lines ensures '\n' !in p {
      if p in padded {
        var i :| 0 <= i < |padded| && padded[i] == p;
        assert p == pad + body[i];
      }
    }
  }

  lemma LiteralMargin(body: seq<string>, pad: string, close: string, lines: seq<string>)
    requires IsMargin(pad) && IsMargin(close) && |body| >= 1
    requires |body[0]| > 0 && !IsWhitespace(body[0][0])
    requires lines == [""] + MapSeq(body, l => pad + l) + [close]
    ensures MinIndent(lines) == Some(|pad|)
  {
    forall i | 0 <= i < |lines| && !IsBlank(lines[i]) ensures |pad| <= IndentWidth(lines[i]) {
      if 1 <= i <= |body| {
        MarginIndent(pad, body[i - 1]);
      }
    }
    MinIndentAbove(lines, |pad|);
    MarginIndent(pad, body[0]);
    assert lines[1] == pad + body[0];
    MinIndentBelow(lines, 1);
  }

  lemma LiteralKept(body: seq<string>, pad: string, close: string, lines: seq<string>)
    requires IsMargin(close) && |body| >= 1
    requires lines == [""] + MapSeq(body, l => pad + l) + [close]
    requires MinIndent(lines) == Some(|pad|)
    ensures TrimIndentLines(lines) == body
  {
    var padded := MapSeq(body, l => pad + l);
    assert IsBlank(close);
    assert lines[1..|lines| - 1] == padded;
    var kept := TrimIndentLines(lines);
    assert |kept| == |body|;
    forall i | 0 <= i < |body| ensures kept[i] == body[i] {
      assert kept[i] == DropChars(padded[i], |pad|);
      assert padded[i] == pad + body[i];
    }
  }

  /** A raw literal with an empty first line, a blank last line and some
      non-blank line at column 0: trimIndent only drops the first and last
      lines and removes no margin. */
  lemma TrimIndentFlush(lines: seq<string>, k: int)
    requires |lines| >= 2 && lines[0] == [] && IsBlank(lines[|lines| - 1])
    requires 0 <= k < |lines| && !IsBlank(lines[k]) && IndentWidth(lines[k]) == 0
    ensures TrimIndentLines(lines) == lines[1..|lines| - 1]
  {
    MinIndentBelow(lines, k);
    var kept := TrimIndentLines(lines);
    var inner := lines[1..|lines| - 1];
    assert |kept| == |inner|;
    forall i | 0 <= i < |kept| ensures kept[i] == inner[i] {
      assert kept[i] == DropChars(inner[i], 0);
    }
  }

  /** Splitting into lines and joining back gives the text, and no line
      holds a line break. */
  lemma LinesParts(s: string)
    ensures Join(Lines(s), "\n") == s
    ensures forall p :: p in Lines(s) ==> '\n' !in p
  {
    SplitJoin(s, "\n");
    SplitPartsFree(s, "\n");
    forall p | p in Lines(s) ensures '\n' !in p {
      ContainsChar(p, '\n');
    }
  }

  /** The lines of two texts joined by a line break are the lines of the one
      followed by those of the other. */
  lemma LinesConcat(a: string, b: string)
    ensures Lines(a + "\n" + b) == Lines(a) + Lines(b)
  {
    LinesParts(a);
    LinesParts(b);
    JoinAppend(Lines(a), Lines(b), "\n");
    LinesOfJoin(Lines(a) + Lines(b));
  }

  lemma LinesSingle(a: string)
    requires '\n' !in a
    ensures Lines(a) == [a]
  {
    LinesOfJoin([a]);
  }

  /** Every line of a part is a line of the parts joined by line breaks. */
  lemma LinesOfJoinInclude(parts: seq<string>, i: int, line: string)
    requires 0 <= i < |parts| && line in Lines(parts[i])
    ensures line in Lines(Join(parts, "\n"))
  {
    if i > 0 {
      assert parts == parts[..i] + parts[i..];
      JoinAppend(parts[..i], parts[i..], "\n");
      LinesConcat(Join(parts[..i], "\n"), Join(parts[i..], "\n"));
      LinesOfJoinInclude(parts[i..], 0, line);
    } else if |parts| > 1 {
      JoinCons(parts[0], parts[1..], "\n");
      assert [parts[0]] + parts[1..] == parts;
      LinesConcat(parts[0], Join(parts[1..], "\n"));
    }
  }

  /** A raw literal opened by a line break and closed by a line of spaces,
      with some non-blank line at column 0 in between: trimIndent gives back
      the text between, margins and all. */
  lemma TrimIndentFramed(x: string, close: string, line: string)
    requires IsMargin(close)
    requires line in Lines(x) && !IsBlank(line) && IndentWidth(line) == 0
    ensures TrimIndent("\n" + x + "\n" + close) == x
  {
    var s := "\n" + x + "\n" + close;
    var inner := Lines(x);
    assert Lines(s) == [""] + inner + [close] by {
      FramedLines(x, close);
    }
    var k :| 0 <= k < |inner| && inner[k] == line;
    FramedKept(inner, close, k);
    LinesParts(x);
  }

  lemma FramedLines(x: string, close: string)
    requires IsMargin(close)
    ensures Lines("\n" + x + "\n" + close) == [""] + Lines(x) + [close]
  {
    FramedAssoc("\n", x, close);
    LinesConcat("", x + "\n" + close);
    LinesConcat(x, close);
    assert forall k :: 0 <= k < |close| ==> close[k] != '\n';
    LinesSingle("");
    LinesSingle(close);
  }

  lemma FramedKept(inner: seq<string>, close: string, k: int)
    requires IsMargin(close)
    requires 0 <= k < |inner| && !IsBlank(inner[k]) && IndentWidth(inner[k]) == 0
    ensures TrimIndentLines([""] + inner + [close]) == inner
  {
    var lines := [""] + inner + [close];
    assert lines[k + 1] == inner[k];
    TrimIndentFlush(lines, k + 1);
    assert lines[1..|lines| - 1] == inner;
  }

  /** The literal's lines joined: the empty first line, the body, the closing line. */
  lemma JoinFramed(body: seq<string>, close: string)
    requires |body| >= 1
    ensures Join([""] + body + [close], "\n") == "\n" + Join(body, "\n") + "\n" + close
  {
    var tail := body + [close];
    assert [""] + body + [close] == [""] + tail;
    JoinCons("", tail, "\n");
    JoinAppend(body, [close], "\n");
    JoinOne(close, "\n");
    FramedAssoc("\n", Join(body, "\n"), close);
  }

  lemma JoinOne(a: string, sep: string)
    ensures Join([a], sep) == a
  {
  }

  lemma FramedAssoc(nl: string, jb: string, close: string)
    ensures [] + nl + (jb + nl + close) == nl + jb + nl + close
  {
  }

  /** What a part contains, the whole contains. */
  lemma ContainsWithin(a: string, b: string, c: string, pat: string)
    requires Contains(b, pat)
    ensures Contains(a + b + c, pat)
  {
    var k :| 0 <= k <= |b| && OccursAt(b, pat, k);
    assert (a + b + c)[|a| + k..|a| + k + |pat|] == b[k..k + |pat|];
    assert OccursAt(a + b + c, pat, |a| + k);
  }

  /** The same with the closing quotes at the body's own margin. */
  lemma TrimIndentLiteral(body: seq<string>, pad: string)
    requires IsMargin(pad) && |body| >= 1
    requires forall i :: 0 <= i < |body| ==> '\n' !in body[i]
    requires |body[0]| > 0 && !IsWhitespace(body[0][0])
    ensures TrimIndent(Join([""] + MapSeq(body, l => pad + l) + [pad], "\n")) == Join(body, "\n")
  {
    TrimIndentLiteralClosed(body, pad, pad);
  }

  lemma JoinSplitHead(x: string, y: string, b: seq<string>, sep: string)
    requires |b| >= 1
    ensures Join([x + sep + y] + b, sep) == Join([x, y] + b, sep)
  {
    JoinCons(x + sep + y, b, sep);
    JoinCons(y, b, sep);
    assert [x, y] + b == [x] + ([y] + b);
    JoinCons(x, [y] + b, sep);
    Regroup(x, sep, y, Join(b, sep));
  }

  lemma Regroup(x: string, sep: string, y: string, z: string)
    ensures x + sep + y + sep + z == x + sep + (y + sep + z)
  {
  }

  /** A part holding a separator counts, once joined, as two parts. */
  lemma JoinSplitPart(a: seq<string>, x: string, y: string, b: seq<string>, sep: string)
    requires |a| >= 1 && |b| >= 1
    ensures Join(a + [x + sep + y] + b, sep) == Join(a + [x, y] + b, sep)
  {
    assert a + [x + sep + y] + b == a + ([x + sep + y] + b);
    assert a + [x, y] + b == a + ([x, y] + b);
    JoinAppend(a, [x + sep + y] + b, sep);
    JoinAppend(a, [x, y] + b, sep);
    JoinSplitHead(x, y, b, sep);
  }

  /** Joining two non-empty runs of lines puts one separator between them. */
  lemma {:induction false} JoinAppend(a: seq<string>, b: seq<string>, sep: string)
    requires |a| >= 1 && |b| >= 1
    ensures Join(a + b, sep) == Join(a, sep) + sep + Join(b, sep)
    decreases |a|
  {
    if |a| == 1 {
      assert ([a[0]] + b)[1..] == b;
    } else {
      assert (a + b)[1..] == a[1..] + b;
      JoinAppend(a[1..], b, sep);
    }
  }

  /** Every part is a piece of the joined text. */
  lemma {:induction false} JoinPartSubstring(parts: seq<string>, sep: string, i: int)
    requires 0 <= i < |parts|
    ensures IsSubstring(parts[i], Join(parts, sep))
    decreases |parts|
  {
    var j := Join(parts, sep);
    if |parts| == 1 {
      SubstringRefl(parts[0]);
    } else if i == 0 {
      assert j[0..|parts[0]|] == parts[0];
      SubstringSlice(j, 0, |parts[0]|);
    } else {
      var tail := Join(parts[1..], sep);
      assert parts[1..][i - 1] == parts[i];
      JoinPartSubstring(parts[1..], sep, i - 1);
      var off := |parts[0]| + |sep|;
      assert j[off..] == tail;
      SubstringSlice(j, off, |j|);
      SubstringTrans(parts[i], tail, j);
    }
  }

  /** A text contains whatever one of the parts joined into it contains. */
  lemma JoinContains(parts: seq<string>, sep: string, i: int, pat: string)
    requires 0 <= i < |parts| && Contains(parts[i], pat)
    ensures Contains(Join(parts, sep), pat)
  {
    JoinPartSubstring(parts, sep, i);
    SubstringContains(parts[i], Join(parts, sep), pat);
  }

  /** The middle of a concatenation occurs in it. */
  lemma ContainsMiddle(a: string, b: string, c: string)
    ensures Contains(a + b + c, b)
  {
    assert (a + b + c)[|a|..|a| + |b|] == b;
    assert OccursAt(a + b + c, b, |a|);
  }

  /** A UTF-16 code unit, the unit Kotlin's String.length and substring count in. */
  type Utf16Unit = x: int | 0 <= x < 0x1_0000

  /** The UTF-16 encoding of one character: itself below 0x10000, a surrogate
      pair above. */
  function CharUnits(c: char): (r: seq<Utf16Unit>)
    ensures |r| == (if c as int < 0x1_0000 then 1 else 2)
  {
    var v := c as int;
    if v < 0x1_0000 then [v as Utf16Unit]
    else [(0xD800 + (v - 0x1_0000) / 0x400) as Utf16Unit, (0xDC00 + (v - 0x1_0000) % 0x400) as Utf16Unit]
  }

  /** The UTF-16 encoding of a text, the sequence a Kotlin String holds. */
  function Utf16(s: string): seq<Utf16Unit>
    decreases |s|
  {
    if s == [] then [] else CharUnits(s[0]) + Utf16(s[1..])
  }

  /** Kotlin's String.length: the number of UTF-16 code units. */
  function Utf16Length(s: string): nat {
    |Utf16(s)|
  }

  /** Decoding UTF-16 back to characters; a lone or reversed surrogate is an
      error. */
  function Utf16Decode(u: seq<Utf16Unit>): Option<string>
    decreases |u|
  {
    if u == [] then Some([])
    else if u[0] < 0xD800 || 0xE000 <= u[0] then
      match Utf16Decode(u[1..]) {
        case Some(rest) => Some([u[0] as char] + rest)
        case None => None
      }
    else if u[0] < 0xDC00 && |u| >= 2 && 0xDC00 <= u[1] < 0xE000 then
      match Utf16Decode(u[2..]) {
        case Some(rest) => Some([(0x1_0000 + (u[0] as int - 0xD800) * 0x400 + (u[1] as int - 0xDC00)) as char] + rest)
        case None => None
      }
    else None
  }

  /** One character's units, followed by anything, decode to that character
      followed by the rest's decoding. */
  lemma CharUnitsDecode(c: char, rest: seq<Utf16Unit>)
    ensures Utf16Decode(CharUnits(c) + rest) == match Utf16Decode(rest) {
      case Some(t) => Some([c] + t)
      case None => None
    }
  {
    var v := c as int;
    var u := CharUnits(c) + rest;
    if v < 0x1_0000 {
      assert u[1..] == rest;
    } else {
      var q := (v - 0x1_0000) / 0x400;
      var m := (v - 0x1_0000) % 0x400;
      assert v - 0x1_0000 == q * 0x400 + m;
      assert u[0] == 0xD800 + q && u[1] == 0xDC00 + m;
      assert u[2..] == rest;
      assert 0x1_0000 + (u[0] as int - 0xD800) * 0x400 + (u[1] as int - 0xDC00) == v;
    }
  }

  /** Decoding undoes the encoding. */
  lemma {:induction false} Utf16RoundTrip(s: string)
    ensures Utf16Decode(Utf16(s)) == Some(s)
    decreases |s|
  {
    if s != [] {
      Utf16RoundTrip(s[1..]);
      CharUnitsDecode(s[0], Utf16(s[1..]));
      assert [s[0]] + s[1..] == s;
    }
  }

  /** A text has at least as many code units as characters and at most twice
      as many; exactly as many when no character lies above 0xFFFF, and twice
      as many when every one does. */
  lemma {:induction false} Utf16LengthBounds(s: string)
    ensures |s| <= Utf16Length(s) <= 2 * |s|
    ensures (forall i :: 0 <= i < |s| ==> s[i] as int < 0x1_0000) ==> Utf16Length(s) == |s|
    ensures (forall i :: 0 <= i < |s| ==> s[i] as int >= 0x1_0000) ==> Utf16Length(s) == 2 * |s|
    decreases |s|
  {
    if s != [] {
      Utf16LengthBounds(s[1..]);
      assert forall i :: 0 <= i < |s[1..]| ==> s[1..][i] == s[i + 1];
    }
  }
}
