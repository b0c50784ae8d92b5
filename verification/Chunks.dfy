/**
 How typed text is cut into invocations: the newline strip and chunkString of
 internal/dispatch/typer.go, on texts of Unicode characters.
 */
module Chunks {

  predicate IsBlank(c: char) { c == ' ' || c == '\t' }

  /** unicode.IsSpace. */
  predicate IsSpace(c: char) {
    || c == ' ' || '\t' <= c <= '\r' || c == '\U{85}' || c == '\U{A0}' || c == '\U{1680}'
    || '\U{2000}' <= c <= '\U{200A}' || c == '\U{2028}' || c == '\U{2029}' || c == '\U{202F}'
    || c == '\U{205F}' || c == '\U{3000}'
  }

  /** strings.TrimSpace(text) == "". */
  predicate AllSpace(text: string) {
    forall i :: 0 <= i < |text| ==> IsSpace(text[i])
  }

  /** Newlines and carriage returns become spaces; everything else stays. */
  function StripNewlines(text: string): (r: string)
    ensures |r| == |text|
    ensures forall i :: 0 <= i < |text| ==> r[i] != '\n' && r[i] != '\r'
    ensures forall i :: 0 <= i < |text| && text[i] != '\n' && text[i] != '\r' ==> r[i] == text[i]
    ensures forall i :: 0 <= i < |text| && (text[i] == '\n' || text[i] == '\r') ==> r[i] == ' '
  {
    seq(|text|, i requires 0 <= i < |text| => if text[i] == '\n' || text[i] == '\r' then ' ' else text[i])
  }

  /** Bytes of the UTF-8 form, what len(s) counts. */
  function ByteLen(text: string): (n: nat)
    ensures n >= |text|
  {
    if text == "" then 0
    else
      var c := text[0];
      (if c < '\U{80}' then 1 else if c < '\U{800}' then 2 else if c < '\U{10000}' then 3 else 4)
      + ByteLen(text[1..])
  }

  function Join(chunks: seq<string>): string {
    if chunks == [] then "" else chunks[0] + Join(chunks[1..])
  }

  /** A text too long for one chunk is cut after the latest blank of its last quarter, else when full. */
  predicate IsCut(rest: string, size: nat, n: nat) {
    var lo := size - size / 4;
    && size < |rest|
    && (|| (lo < n <= size && IsBlank(rest[n - 1]) && forall k :: n <= k < size ==> !IsBlank(rest[k]))
        || (n == size && forall k :: lo <= k < size ==> !IsBlank(rest[k])))
  }

  /** What chunkString makes of a text. */
  predicate Splits(rest: string, size: nat, chunks: seq<string>)
    requires size > 0
    decreases |chunks|
  {
    if |rest| <= size then chunks == [rest]
    else
      && chunks != []
      && IsCut(rest, size, |chunks[0]|)
      && chunks[0] == rest[..|chunks[0]|]
      && Splits(rest[|chunks[0]|..], size, chunks[1..])
  }

  /** Where the chunk that starts at i ends: after a blank near its end, if there is one. */
  method FindSplit(runes: string, i: nat, size: nat) returns (split: nat)
    requires size > 0 && i + size < |runes|
    ensures i < split <= i + size && IsCut(runes[i..], size, split - i)
  {
    var rest := runes[i..];
    var end := i + size;
    var minBoundary := i + size - size / 4;
    split := end;
    var j := end;
    while j > minBoundary
      invariant minBoundary <= j <= end && split == end
      invariant forall k :: j - i <= k < size ==> !IsBlank(rest[k])
    {
      assert rest[j - i - 1] == runes[j - 1];
      if IsBlank(runes[j - 1]) {
        return j;
      }
      j := j - 1;
    }
  }

  method ChunkString(s: string, size: int) returns (chunks: seq<string>)
    ensures size <= 0 ==> chunks == [s]
    ensures size > 0 ==> Splits(s, size, chunks)
  {
    if size <= 0 || ByteLen(s) <= size {
      return [s];
    }
    if |s| <= size {
      return [s];
    }
    chunks := LongSplit(s, size);
  }

  /** What remains from i on, once divided, completes the chunks made so far. */
  ghost predicate Completes(runes: string, size: nat, chunks: seq<string>, i: nat)
    requires size > 0 && i <= |runes|
  {
    forall tail :: Splits(runes[i..], size, tail) ==> Splits(runes, size, chunks + tail)
  }

  lemma CompletesStart(runes: string, size: nat)
    requires size > 0
    ensures Completes(runes, size, [], 0)
  {
    assert runes[0..] == runes;
    forall tail: seq<string> ensures [] + tail == tail { }
  }

  lemma CompletesStep(runes: string, size: nat, chunks: seq<string>, i: nat, split: nat)
    requires size > 0 && i < split <= |runes| && Completes(runes, size, chunks, i)
    requires IsCut(runes[i..], size, split - i)
    ensures Completes(runes, size, chunks + [runes[i..split]], split)
  {
    var piece := runes[i..split];
    assert runes[i..][|piece|..] == runes[split..] && piece == runes[i..][..|piece|];
    forall tail | Splits(runes[split..], size, tail)
      ensures Splits(runes, size, chunks + [piece] + tail)
    {
      SplitsCons(runes[i..], size, piece, tail);
      assert chunks + [piece] + tail == chunks + ([piece] + tail);
    }
  }

  method LongSplit(runes: string, size: nat) returns (chunks: seq<string>)
    requires size > 0 && runes != ""
    ensures Splits(runes, size, chunks)
  {
    chunks := [];
    var i := 0;
    CompletesStart(runes, size);
    while i < |runes|
      invariant i < |runes| && Completes(runes, size, chunks, i)
      decreases |runes| - i
    {
      var end := i + size;
      if end >= |runes| {
        assert Splits(runes[i..], size, [runes[i..]]);
        chunks := chunks + [runes[i..]];
        break;
      }
      var split := FindSplit(runes, i, size);
      CompletesStep(runes, size, chunks, i, split);
      chunks := chunks + [runes[i..split]];
      i := split;
    }
  }

  lemma SplitsCons(rest: string, size: nat, piece: string, tail: seq<string>)
    requires size > 0 && IsCut(rest, size, |piece|) && piece == rest[..|piece|]
    requires Splits(rest[|piece|..], size, tail)
    ensures Splits(rest, size, [piece] + tail)
  {
    assert ([piece] + tail)[1..] == tail;
  }

  /** The chunks are the text, none is oversized, and only an empty text has an empty chunk. */
  lemma {:induction false} ChunksAreLossless(text: string, size: nat, chunks: seq<string>)
    requires size > 0 && Splits(text, size, chunks)
    ensures chunks != [] && Join(chunks) == text
    ensures forall k :: 0 <= k < |chunks| ==> |chunks[k]| <= size && (text != "" ==> 0 < |chunks[k]|)
    decreases |chunks|
  {
    if |text| > size {
      var n := |chunks[0]|;
      ChunksAreLossless(text[n..], size, chunks[1..]);
      assert text[..n] + text[n..] == text;
    } else {
      assert chunks[1..] == [];
    }
  }

  /**
   Every chunk but the last has more than three quarters of the size, and is cut
   from its place in the text after the latest blank of its last quarter, or is full.
   */
  lemma {:induction false} CutsInPlace(text: string, size: nat, chunks: seq<string>, k: nat)
    requires size > 0 && Splits(text, size, chunks) && k < |chunks| - 1
    ensures 4 * |chunks[k]| > 3 * size
    ensures var offset := |Join(chunks[..k])|;
      && offset < |text| && IsCut(text[offset..], size, |chunks[k]|)
      && chunks[k] == text[offset..][..|chunks[k]|]
    decreases k
  {
    var n := |chunks[0]|;
    if k == 0 {
      assert text[0..] == text && chunks[..0] == [];
    } else {
      CutsInPlace(text[n..], size, chunks[1..], k - 1);
      assert chunks[..k][0] == chunks[0] && chunks[..k][1..] == chunks[1..][..k - 1];
      var offset := |Join(chunks[1..][..k - 1])|;
      assert text[n..][offset..] == text[n + offset..];
    }
  }

  /**
   Where a chunk that is not the last ends, in the text it is cut from: after the
   latest space or tab of the last quarter, else when it is full.
   */
  lemma CutExactly(rest: string, size: nat, n: nat)
    requires size > 0 && IsCut(rest, size, n)
    ensures size - size / 4 <= n <= size < |rest| && n > 0
    ensures n < size ==> n > size - size / 4 && (rest[n - 1] == ' ' || rest[n - 1] == '\t')
    ensures forall k :: size - size / 4 <= k < size && n <= k ==> rest[k] != ' ' && rest[k] != '\t'
    ensures n == size && rest[n - 1] != ' ' && rest[n - 1] != '\t' ==>
              forall k :: size - size / 4 <= k < size ==> rest[k] != ' ' && rest[k] != '\t'
  {
  }

  /** A text has only one such division. */
  lemma {:induction false} DivisionIsUnique(text: string, size: nat, a: seq<string>, b: seq<string>)
    requires size > 0 && Splits(text, size, a) && Splits(text, size, b)
    ensures a == b
    decreases |a|
  {
    if |text| > size {
      CutIsUnique(text, size, |a[0]|, |b[0]|);
      DivisionIsUnique(text[|a[0]|..], size, a[1..], b[1..]);
      assert a == [a[0]] + a[1..] && b == [b[0]] + b[1..];
    }
  }

  lemma CutIsUnique(rest: string, size: nat, n: nat, m: nat)
    requires size > 0 && IsCut(rest, size, n) && IsCut(rest, size, m)
    ensures n == m
  {
    assert IsBlank(rest[n - 1]) ==> n <= m || m == size;
    assert IsBlank(rest[m - 1]) ==> m <= n || n == size;
  }
}
