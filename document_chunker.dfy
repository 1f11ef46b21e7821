/** DocumentEmbeddingController's fixed-width chunker and the counts that
    embedDocument reports; the embeddings themselves are left out. */
module DocumentChunker {
  import opened Wrappers
  import opened Strings

  /** The chunks of a text, each size units long except possibly the last. */
  function Chunks<T>(text: seq<T>, size: nat): seq<seq<T>>
    requires size > 0
    decreases |text|
  {
    if text == [] then []
    else
      var n := if size < |text| then size else |text|;
      [text[..n]] + Chunks(text[n..], size)
  }

  function Concat<T>(parts: seq<seq<T>>): seq<T> {
    if parts == [] then [] else parts[0] + Concat(parts[1..])
  }

  /** Concatenating the chunks gives back the text. */
  lemma {:induction false} ChunksConcat<T>(text: seq<T>, size: nat)
    requires size > 0
    ensures Concat(Chunks(text, size)) == text
    decreases |text|
  {
    if text != [] {
      var n := if size < |text| then size else |text|;
      var c := Chunks(text, size);
      assert c[1..] == Chunks(text[n..], size);
      calc {
        Concat(c);
        text[..n] + Concat(Chunks(text[n..], size));
        { ChunksConcat(text[n..], size); }
        text[..n] + text[n..];
      }
      assert text[..n] + text[n..] == text;
    }
  }

  /** No chunk is empty or longer than size, and all but the last are exactly size long. */
  predicate WellSized<T>(c: seq<seq<T>>, size: nat) {
    (forall i :: 0 <= i < |c| ==> 0 < |c[i]| <= size)
    && (forall i :: 0 <= i < |c| - 1 ==> |c[i]| == size)
  }

  lemma {:induction false} ChunksLengths<T>(text: seq<T>, size: nat)
    requires size > 0
    ensures WellSized(Chunks(text, size), size)
    decreases |text|
  {
    if text != [] {
      var n := if size < |text| then size else |text|;
      var rest := Chunks(text[n..], size);
      ChunksLengths(text[n..], size);
      ConsWellSized(text[..n], rest, size, rest != []);
    }
  }

  lemma ConsWellSized<T>(piece: seq<T>, rest: seq<seq<T>>, size: nat, more: bool)
    requires WellSized(rest, size) && 0 < |piece| <= size
    requires more == (rest != []) && (more ==> |piece| == size)
    ensures WellSized([piece] + rest, size)
  {
    var c := [piece] + rest;
    forall i | 0 <= i < |c| ensures 0 < |c[i]| <= size {
      if i > 0 {
        assert c[i] == rest[i - 1];
      }
    }
    forall i | 0 <= i < |c| - 1 ensures |c[i]| == size {
      if i > 0 {
        assert c[i] == rest[i - 1];
      }
    }
  }

  /** There are ceil(|text| / size) chunks: the fewest whose total capacity
      covers the text, and none for the empty text. */
  lemma {:induction false} ChunksCount<T>(text: seq<T>, size: nat)
    requires size > 0
    ensures var k := |Chunks(text, size)|;
      |text| <= k * size && (k == 0 || (k - 1) * size < |text|)
    ensures text == [] <==> Chunks(text, size) == []
    decreases |text|
  {
    if text != [] {
      var n := if size < |text| then size else |text|;
      var k := |Chunks(text[n..], size)|;
      ChunksCount(text[n..], size);
      assert (k + 1) * size == k * size + size;
      assert |text| == n + |text[n..]|;
    }
  }

  /** Where splitIntoChunks' loop ends the chunk that begins at start, in a
      text of n units: minOf(start + chunkSize, n). */
  function ChunkEnd(n: nat, start: nat, chunkSize: int): (end: int)
    ensures chunkSize > 0 && start < n ==> start < end <= n
    ensures chunkSize < 0 && start < n ==> end < start
  {
    if start + chunkSize < n then start + chunkSize else n
  }

  /** With chunk size 0 the loop as written makes no progress: each round
      cuts an empty piece and leaves start where it was, so start < n holds
      for ever and the list of pieces grows without end. */
  lemma ZeroSizeStalls(units: seq<Utf16Unit>, start: nat)
    requires start < |units|
    ensures var end := ChunkEnd(|units|, start, 0);
            end == start && units[start..end] == [] && end < |units|
  {
  }

  /** The message of the exception substring(begin, end) throws on a text
      of n units when end < begin. */
  function SubstringError(begin: nat, end: int, n: nat): string {
    "begin " + NatText(begin) + ", end " + IntText(end) + ", length " + NatText(n)
  }

  /** For a negative chunk size the first piece already runs from 0 to
      chunkSize. */
  function NegativeSizeMessage(n: nat, chunkSize: int): string
    requires chunkSize < 0
  {
    SubstringError(0, chunkSize, n)
  }

  /** The error reported instead of looping when the chunk size is zero and
      the text is not empty. */
  const ZeroSizeMessage: string := "chunkSize must be positive"

  /** splitIntoChunks, on the UTF-16 code units that Kotlin's length and
      substring count. A negative chunk size makes the first substring call
      fail; a zero chunk size with non-empty text, on which the loop as
      written never ends, is reported as an error. */
  method SplitIntoChunks(text: string, chunkSize: int) returns (r: Result<seq<seq<Utf16Unit>>>)
    ensures chunkSize > 0 ==> r == Ok(Chunks(Utf16(text), chunkSize))
    ensures text == [] ==> r == Ok([])
    ensures chunkSize == 0 && text != [] ==> r == Err(ZeroSizeMessage)
    ensures chunkSize < 0 && text != [] ==> r == Err(NegativeSizeMessage(Utf16Length(text), chunkSize))
  {
    var units := Utf16(text);
    Utf16LengthBounds(text);
    if chunkSize == 0 && units != [] {
      return Err(ZeroSizeMessage);
    }
    var chunks: seq<seq<Utf16Unit>> := [];
    var start := 0;
    while start < |units|
      invariant 0 <= start <= |units|
      invariant chunkSize <= 0 ==> start == 0 && chunks == []
      invariant chunkSize > 0 ==> chunks + Chunks(units[start..], chunkSize) == Chunks(units, chunkSize)
      decreases |units| - start
    {
      var end := ChunkEnd(|units|, start, chunkSize);
      if end < start {
        return Err(SubstringError(start, end, |units|));
      }
      var piece := units[start..end];
      assert units[start..][..end - start] == piece;
      assert units[start..][end - start..] == units[end..];
      chunks := chunks + [piece];
      start := end;
    }
    assert units[start..] == [];
    assert chunks + [] == chunks;
    return Ok(chunks);
  }

  function NatText(n: nat): string
    decreases n
  {
    if n < 10 then [['0', '1', '2', '3', '4', '5', '6', '7', '8', '9'][n]]
    else NatText(n / 10) + NatText(n % 10)
  }

  function IntText(i: int): string {
    if i < 0 then "-" + NatText(-i) else NatText(i)
  }

  /** One entry of the chunks list in embedDocument's response. */
  datatype ChunkInfo = ChunkInfo(index: nat, text: seq<Utf16Unit>, length: nat)

  /** embedDocument's counts. */
  datatype EmbedReport = EmbedReport(originalLength: nat, chunkCount: nat, chunkSize: int, chunks: seq<ChunkInfo>)

  /** The chunks list: each chunk with its position and its length. */
  function Describe(chunks: seq<seq<Utf16Unit>>): (r: seq<ChunkInfo>)
    ensures |r| == |chunks|
    ensures forall i :: 0 <= i < |r| ==> r[i] == ChunkInfo(i, chunks[i], |chunks[i]|)
  {
    seq(|chunks|, i requires 0 <= i < |chunks| => ChunkInfo(i, chunks[i], |chunks[i]|))
  }

  /** embedDocument, with the embedding call left out. */
  method EmbedDocument(text: string, chunkSize: int) returns (r: Result<EmbedReport>)
    ensures chunkSize > 0 ==>
      (r.Ok?
       && r.value.originalLength == Utf16Length(text)
       && r.value.chunkCount == |r.value.chunks| == |Chunks(Utf16(text), chunkSize)|
       && r.value.chunkSize == chunkSize
       && r.value.chunks == Describe(Chunks(Utf16(text), chunkSize)))
    ensures chunkSize == 0 && text != [] ==> r == Err(ZeroSizeMessage)
    ensures chunkSize < 0 && text != [] ==> r == Err(NegativeSizeMessage(Utf16Length(text), chunkSize))
    ensures text == [] ==> r == Ok(EmbedReport(0, 0, chunkSize, []))
  {
    var chunks := SplitIntoChunks(text, chunkSize);
    if chunks.Err? {
      return Err(chunks.error);
    }
    return Ok(EmbedReport(Utf16Length(text), |chunks.value|, chunkSize, Describe(chunks.value)));
  }
  /** The reported chunks, put back together in order, decode to the
      original text; every length adds up to the original length. */
  lemma {:induction false} ReportRestoresText(text: string, chunkSize: int)
    requires chunkSize > 0
    ensures var c := Chunks(Utf16(text), chunkSize);
            Utf16Decode(Concat(c)) == Some(text) && |Concat(c)| == Utf16Length(text)
  {
    ChunksConcat(Utf16(text), chunkSize);
    Utf16RoundTrip(text);
  }

  /** A chunk size of 1 cuts an emoji into its two surrogates, neither of
      which is a text on its own. */
  lemma EmojiSplitsIntoSurrogates()
    ensures var c := Chunks(Utf16("\U{1F600}"), 1);
            |c| == 2 && Utf16Decode(c[0]) == None && Utf16Decode(c[1]) == None
  {
    var u := Utf16("\U{1F600}");
    assert u == [0xD83D, 0xDE00];
    var rest := u[1..];
    assert rest[..1] == rest && rest[1..] == [];
    assert Chunks(rest, 1) == [rest];
    assert Chunks(u, 1) == [u[..1], rest];
  }
}
