/** MapOutputParser.parse: "key<sep>value" lines of an LLM reply become an
    insertion-ordered map (Kotlin's associate builds a LinkedHashMap), where a
    later line with the same key overwrites the value in place. */
module MapOutputParser {
  import opened Wrappers
  import opened Strings

  /** The default separator of the parser. */
  const Colon: string := ":"

  /** An insertion-ordered map as its entry list. */
  type Entries = seq<(string, string)>

  function KeysOf(m: Entries): set<string> {
    set i | 0 <= i < |m| :: m[i].0
  }

  predicate DistinctKeys(m: Entries) {
    forall i, j :: 0 <= i < j < |m| ==> m[i].0 != m[j].0
  }

  lemma KeysCons(e: (string, string), m: Entries)
    ensures KeysOf([e] + m) == {e.0} + KeysOf(m)
  {
    var r := [e] + m;
    assert forall i :: 1 <= i < |r| ==> r[i] == m[i - 1];
    forall x | x in KeysOf(m) ensures x in KeysOf(r) {
      var i :| 0 <= i < |m| && m[i].0 == x;
      assert r[i + 1].0 == x;
    }
    forall x | x in KeysOf(r) ensures x == e.0 || x in KeysOf(m) {
      var i :| 0 <= i < |r| && r[i].0 == x;
      if i > 0 {
        assert m[i - 1].0 == x;
      }
    }
    assert r[0].0 == e.0;
  }

  function Lookup(m: Entries, k: string): (r: Option<string>)
    ensures r.None? <==> k !in KeysOf(m)
  {
    if m == [] then None
    else
      KeysCons(m[0], m[1..]);
      assert m == [m[0]] + m[1..];
      if m[0].0 == k then Some(m[0].1) else Lookup(m[1..], k)
  }

  /** LinkedHashMap.put: overwrite an existing key where it stands, or append. */
  function Put(m: Entries, k: string, v: string): (r: Entries)
    requires DistinctKeys(m)
    ensures DistinctKeys(r)
    ensures KeysOf(r) == KeysOf(m) + {k}
    ensures |r| == if k in KeysOf(m) then |m| else |m| + 1
  {
    if m == [] then
      KeysCons((k, v), []);
      [(k, v)]
    else
      KeysCons(m[0], m[1..]);
      assert m == [m[0]] + m[1..];
      if m[0].0 == k then
        KeysCons((k, v), m[1..]);
        [(k, v)] + m[1..]
      else
        var t := Put(m[1..], k, v);
        KeysCons(m[0], t);
        assert forall i :: 1 <= i < |m| ==> m[i].0 in KeysOf(m[1..]);
        [m[0]] + t
  }

  /** After put, the key maps to the new value ... */
  lemma {:induction false} PutLookupSame(m: Entries, k: string, v: string)
    requires DistinctKeys(m)
    ensures Lookup(Put(m, k, v), k) == Some(v)
  {
    if m != [] && m[0].0 != k {
      PutLookupSame(m[1..], k, v);
    }
  }

  /** ... and every other key keeps its value. */
  lemma {:induction false} PutLookupOther(m: Entries, k: string, v: string, k': string)
    requires DistinctKeys(m) && k' != k
    ensures Lookup(Put(m, k, v), k') == Lookup(m, k')
  {
    if m != [] && m[0].0 != k {
      PutLookupOther(m[1..], k, v, k');
    }
  }

  /** Kotlin associate: put every pair in order. */
  function Associate(es: Entries): (r: Entries)
    ensures DistinctKeys(r)
    ensures KeysOf(r) == KeysOf(es)
    ensures |r| <= |es|
  {
    if es == [] then []
    else
      var init := es[..|es| - 1];
      var r := Put(Associate(init), es[|es| - 1].0, es[|es| - 1].1);
      assert KeysOf(es) == KeysOf(init) + {es[|es| - 1].0} by {
        assert forall i :: 0 <= i < |init| ==> es[i] == init[i];
      }
      r
  }

  /** The value a key ends up with is the one on its last line. */
  lemma {:induction false} LaterWins(es: Entries, i: int)
    requires 0 <= i < |es|
    requires forall j :: i < j < |es| ==> es[j].0 != es[i].0
    ensures Lookup(Associate(es), es[i].0) == Some(es[i].1)
  {
    var init := es[..|es| - 1];
    var last := es[|es| - 1];
    assert Associate(es) == Put(Associate(init), last.0, last.1);
    if i < |es| - 1 {
      assert init[i] == es[i];
      assert forall j :: i < j < |init| ==> init[j] == es[j];
      LaterWins(init, i);
      PutLookupOther(Associate(init), last.0, last.1, es[i].0);
    } else {
      PutLookupSame(Associate(init), last.0, last.1);
    }
  }

  /** Distinct keys: associate builds the entry list unchanged. */
  lemma {:induction false} AssociateDistinct(es: Entries)
    requires DistinctKeys(es)
    ensures Associate(es) == es
  {
    if es != [] {
      var init := es[..|es| - 1];
      var last := es[|es| - 1];
      assert last.0 !in KeysOf(init);
      calc {
        Associate(es);
        Put(Associate(init), last.0, last.1);
        { AssociateDistinct(init); }
        Put(init, last.0, last.1);
        { PutNewAppends(init, last.0, last.1); }
        init + [last];
        es;
      }
    }
  }

  /** Associating one more pair puts it into the map built so far. */
  lemma AssociateSnoc(es: Entries, k: string, v: string)
    ensures Associate(es + [(k, v)]) == Put(Associate(es), k, v)
  {
    assert (es + [(k, v)])[..|es|] == es;
  }

  /** Every entry of the associated map is one of the pairs. */
  lemma {:induction false} AssociateLookupIn(es: Entries, k: string, v: string)
    requires Lookup(Associate(es), k) == Some(v)
    ensures (k, v) in es
  {
    assert k in KeysOf(Associate(es));
    var w :| 0 <= w < |es| && es[w].0 == k;
    var init := es[..|es| - 1];
    var last := es[|es| - 1];
    assert es == init + [last];
    AssociateSnoc(init, last.0, last.1);
    if last.0 == k {
      PutLookupSame(Associate(init), k, last.1);
    } else {
      PutLookupOther(Associate(init), last.0, last.1, k);
      AssociateLookupIn(init, k, v);
    }
  }

  /** Putting a new key appends it. */
  lemma {:induction false} PutNewAppends(m: Entries, k: string, v: string)
    requires DistinctKeys(m) && k !in KeysOf(m)
    ensures Put(m, k, v) == m + [(k, v)]
  {
    if m != [] {
      assert m == [m[0]] + m[1..];
      KeysCons(m[0], m[1..]);
      calc {
        Put(m, k, v);
        [m[0]] + Put(m[1..], k, v);
        { PutNewAppends(m[1..], k, v); }
        [m[0]] + (m[1..] + [(k, v)]);
        m + [(k, v)];
      }
    }
  }

  /** filter { it.isNotEmpty() && it.contains(separator) } on trimmed lines. */
  function WithSeparator(lines: seq<string>, separator: string): (r: seq<string>)
    ensures forall i :: 0 <= i < |r| ==> r[i] in lines && Contains(r[i], separator)
    ensures forall j :: 0 <= j < |lines| && Contains(lines[j], separator) ==> lines[j] in r
  {
    if lines == [] then []
    else
      var rest := WithSeparator(lines[1..], separator);
      assert forall j :: 1 <= j < |lines| ==> lines[j] == lines[1..][j - 1];
      (if Contains(lines[0], separator) then [lines[0]] else []) + rest
  }

  /** The lines that contribute an entry. */
  function ContributingLines(text: string, separator: string): (r: seq<string>)
    ensures forall i :: 0 <= i < |r| ==> r[i] != [] && IsTrimmed(r[i]) && Contains(r[i], separator)
  {
    WithSeparator(NonEmptyTrimmed(Lines(text)), separator)
  }

  /** The pair one contributing line yields. */
  function Entry(line: string, separator: string): (string, string) {
    var parts := SplitFirst(line, separator);
    (Trim(parts[0]), if |parts| > 1 then Trim(parts[1]) else "")
  }

  function EntriesOf(lines: seq<string>, separator: string): (r: Entries)
    ensures |r| == |lines|
    ensures forall i :: 0 <= i < |lines| ==> r[i] == Entry(lines[i], separator)
  {
    MapSeq(lines, line => Entry(line, separator))
  }

  function Parse(text: string, separator: string): (r: Entries)
    ensures DistinctKeys(r)
    ensures |r| <= |ContributingLines(text, separator)|
  {
    Associate(EntriesOf(ContributingLines(text, separator), separator))
  }

  /** The key is the trimmed text before the first separator and the value the
      trimmed rest of the line, which may contain the separator again. */
  lemma EntrySplitsAtFirst(line: string, separator: string)
    requires Contains(line, separator)
    ensures exists i :: (FirstOccurrence(line, separator, i)
      && Entry(line, separator) == (Trim(line[..i]), Trim(line[i + |separator|..])))
  {
    var i := IndexOf(line, separator).value;
    EntryAt(line, separator, i);
    assert FirstOccurrence(line, separator, i);
  }

  /** The separator occurs at i and nowhere before. */
  predicate FirstOccurrence(line: string, separator: string, i: int) {
    OccursAt(line, separator, i) && forall k :: 0 <= k < i ==> !OccursAt(line, separator, k)
  }

  lemma EntryAt(line: string, separator: string, i: nat)
    requires IndexOf(line, separator) == Some(i)
    ensures i + |separator| <= |line|
    ensures Entry(line, separator) == (Trim(line[..i]), Trim(line[i + |separator|..]))
  {
    assert SplitFirst(line, separator) == [line[..i], line[i + |separator|..]];
  }

  /** With a one-character separator absent from the key part, the line splits
      at the separator after the key; the value part may contain it again. */
  lemma EntryOfKeyValue(key: string, c: char, value: string)
    requires c !in key
    ensures Entry(key + [c] + value, [c]) == (Trim(key), Trim(value))
  {
    var line := key + [c] + value;
    OccursChar(line, c, |key|);
    forall k | 0 <= k < |key| ensures !OccursAt(line, [c], k) {
      OccursChar(line, c, k);
      assert line[k] == key[k];
    }
    assert IndexOf(line, [c]) == Some(|key|);
    assert line[..|key|] == key && line[|key| + 1..] == value;
  }

  /** For each key, the value from the last line carrying that key wins. */
  lemma LastLineWins(text: string, separator: string, i: int)
    requires 0 <= i < |ContributingLines(text, separator)|
    requires var ls := ContributingLines(text, separator);
      forall j :: i < j < |ls| ==> Entry(ls[j], separator).0 != Entry(ls[i], separator).0
    ensures var e := Entry(ContributingLines(text, separator)[i], separator);
      Lookup(Parse(text, separator), e.0) == Some(e.1)
  {
    LaterWins(EntriesOf(ContributingLines(text, separator), separator), i);
  }

  /** The keys are exactly the keys of the contributing lines. */
  lemma KeysFromContributingLines(text: string, separator: string)
    ensures var ls := ContributingLines(text, separator);
      KeysOf(Parse(text, separator)) == set i | 0 <= i < |ls| :: Entry(ls[i], separator).0
  {
    var ls := ContributingLines(text, separator);
    var es := EntriesOf(ls, separator);
    assert KeysOf(es) == set i | 0 <= i < |ls| :: Entry(ls[i], separator).0;
  }

  /** Lines carrying pairwise different keys give one entry each. */
  lemma DistinctKeysOnePerLine(text: string, separator: string)
    requires var ls := ContributingLines(text, separator);
      forall i, j :: 0 <= i < j < |ls| ==> Entry(ls[i], separator).0 != Entry(ls[j], separator).0
    ensures |Parse(text, separator)| == |ContributingLines(text, separator)|
  {
    var ls := ContributingLines(text, separator);
    var es := EntriesOf(ls, separator);
    assert DistinctKeys(es) by {
      forall i, j | 0 <= i < j < |es| ensures es[i].0 != es[j].0 {
        assert es[i] == Entry(ls[i], separator) && es[j] == Entry(ls[j], separator);
      }
    }
    AssociateDistinct(es);
  }

  /** A reply without the separator anywhere gives an empty map. */
  lemma NoSeparatorNoEntries(text: string, separator: string)
    requires !Contains(text, separator)
    ensures Parse(text, separator) == []
  {
    var ls := Lines(text);
    var clean := NonEmptyTrimmed(ls);
    var cl := ContributingLines(text, separator);
    if cl != [] {
      assert cl[0] in clean;
      NonEmptyTrimmedMember(ls, cl[0]);
      var j :| 0 <= j < |ls| && Trim(ls[j]) == cl[0];
      SplitPartsSubstrings(text, "\n");
      assert ls[j] in ls;
      TrimIsSubstring(ls[j]);
      SubstringTrans(cl[0], ls[j], text);
      SubstringContains(cl[0], text, separator);
    }
  }
}
