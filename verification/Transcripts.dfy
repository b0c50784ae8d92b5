/**
 What becomes of the backend's answer before the callbacks see it: the trimming
 and the filters of transcribe in cmd/dictad/asrmonitor.go.
 */
module Transcripts {
  import opened Common
  import opened Chunks
  import opened Repetition

  function TrimLeft(text: string, cut: char -> bool): string {
    if text != "" && cut(text[0]) then TrimLeft(text[1..], cut) else text
  }

  function TrimRight(text: string, cut: char -> bool): string {
    if text != "" && cut(text[|text|-1]) then TrimRight(text[..|text|-1], cut) else text
  }

  function TrimSpace(text: string): string {
    TrimRight(TrimLeft(text, IsSpace), IsSpace)
  }

  function Lower(text: string, lower: char -> char): string {
    seq(|text|, i requires 0 <= i < |text| => lower(text[i]))
  }

  predicate IsFiller(c: char) { c in ".!?, " }

  predicate AllFiller(text: string) {
    forall i :: 0 <= i < |text| ==> IsFiller(text[i])
  }

  /** Phrases the Whisper models produce on near-silence. */
  const PHRASES: set<string> := {
    "", "you", "thank you", "thanks", "thanks for watching", "thank you for watching", "thank you so much",
    "thank you so much for watching", "bye", "goodbye" }

  function Normalized(text: string, lower: char -> char): string {
    TrimSpace(TrimRight(Lower(TrimSpace(text), lower), IsFiller))
  }

  predicate IsHallucination(text: string, lower: char -> char) {
    Normalized(text, lower) in PHRASES
  }

  /** The text handed to onTranscript, or None when onSkip is called instead. */
  function Accepted(answer: Option<string>, strip: string -> string, lower: char -> char, isLetter: char -> bool): (r: Option<string>)
    ensures r.Some? ==> r.value != ""
  {
    if answer.None? then None
    else
      var text := strip(TrimSpace(answer.value));
      if IsHallucination(text, lower) || Degenerate(text, lower, isLetter) || text == "" then None else Some(text)
  }

  /** The filters as transcribe runs them; `nul` is no letter. */
  method Filter(answer: Option<string>, strip: string -> string, lower: char -> char, isLetter: char -> bool, nul: char)
    returns (heard: Option<string>)
    requires !isLetter(nul)
    ensures heard == Accepted(answer, strip, lower, isLetter)
  {
    if answer.None? {
      return None;
    }
    var text := strip(TrimSpace(answer.value));
    if IsHallucination(text, lower) {
      return None;
    }
    var looping := IsRepetitionLoop(text, lower, isLetter, nul);
    if looping || text == "" {
      return None;
    }
    return Some(text);
  }

  lemma {:induction false} TrimmedLeftStays(text: string, cut: char -> bool)
    requires AllFiller(text)
    ensures AllFiller(TrimLeft(text, cut))
  {
    if text != "" { TrimmedLeftStays(text[1..], cut); }
  }

  lemma {:induction false} TrimmedRightStays(text: string, cut: char -> bool)
    requires AllFiller(text)
    ensures AllFiller(TrimRight(text, cut))
  {
    if text != "" { TrimmedRightStays(text[..|text|-1], cut); }
  }

  lemma {:induction false} TrimRightAll(text: string, cut: char -> bool)
    requires forall i :: 0 <= i < |text| ==> cut(text[i])
    ensures TrimRight(text, cut) == ""
  {
    if text != "" { TrimRightAll(text[..|text|-1], cut); }
  }

  /** A text of nothing but full stops, marks, commas and blanks counts as a hallucination. */
  lemma FillerIsHallucination(text: string, lower: char -> char)
    requires forall c :: IsFiller(c) ==> lower(c) == c
    requires AllFiller(text)
    ensures IsHallucination(text, lower)
  {
    TrimmedLeftStays(text, IsSpace);
    TrimmedRightStays(TrimLeft(text, IsSpace), IsSpace);
    var lowered := Lower(TrimSpace(text), lower);
    assert AllFiller(lowered);
    TrimRightAll(lowered, IsFiller);
    assert Normalized(text, lower) == "";
  }

  /**
   A text that reaches the callback says something, is no known phrase and no
   decoder loop; the last test, for an empty text, never decides by itself.
   */
  lemma AcceptedSpeaks(answer: Option<string>, strip: string -> string, lower: char -> char, isLetter: char -> bool)
    requires forall c :: IsFiller(c) ==> lower(c) == c
    ensures var r := Accepted(answer, strip, lower, isLetter);
      && (r.Some? ==> exists i :: 0 <= i < |r.value| && !IsFiller(r.value[i]))
      && (r.None? && answer.Some? ==>
            var text := strip(TrimSpace(answer.value)); IsHallucination(text, lower) || Degenerate(text, lower, isLetter))
  {
    if answer.Some? {
      var text := strip(TrimSpace(answer.value));
      if AllFiller(text) { FillerIsHallucination(text, lower); }
    }
  }

  /** Exactly which texts are delivered: the stripped answer, unless it is a known phrase or a decoder loop. */
  lemma AcceptedExactly(answer: Option<string>, strip: string -> string, lower: char -> char, isLetter: char -> bool, text: string)
    ensures Accepted(answer, strip, lower, isLetter) == Some(text) <==>
              && answer.Some? && text == strip(TrimSpace(answer.value))
              && Normalized(text, lower) !in PHRASES
              && !Degenerate(text, lower, isLetter)
  {
    if text == "" { assert Normalized("", lower) == ""; }
  }

  /** White space around the text is gone, and nothing else. */
  lemma TrimSpaceExactly(pre: string, core: string, post: string)
    requires AllSpace(pre) && AllSpace(post)
    requires core != "" && !IsSpace(core[0]) && !IsSpace(core[|core|-1])
    ensures TrimSpace(pre + (core + post)) == core
  {
    TrimLeftExactly(pre, core + post, IsSpace);
    TrimRightExactly(core, post, IsSpace);
  }

  /** Of white space nothing is left. */
  lemma BlankIsTrimmed(text: string)
    requires AllSpace(text)
    ensures TrimSpace(text) == ""
  {
    TrimLeftExactly(text, "", IsSpace);
    assert text + "" == text;
  }

  lemma {:induction false} TrimLeftExactly(pre: string, rest: string, cut: char -> bool)
    requires forall i :: 0 <= i < |pre| ==> cut(pre[i])
    requires rest != "" ==> !cut(rest[0])
    ensures TrimLeft(pre + rest, cut) == rest
  {
    if pre == "" {
      assert pre + rest == rest;
    } else {
      TrimLeftExactly(pre[1..], rest, cut);
      assert (pre + rest)[1..] == pre[1..] + rest;
    }
  }

  lemma {:induction false} TrimRightExactly(core: string, post: string, cut: char -> bool)
    requires forall i :: 0 <= i < |post| ==> cut(post[i])
    requires core != "" ==> !cut(core[|core|-1])
    ensures TrimRight(core + post, cut) == core
  {
    if post == "" {
      assert core + post == core;
    } else {
      var n := |post| - 1;
      TrimRightExactly(core, post[..n], cut);
      assert (core + post)[..|core + post| - 1] == core + post[..n];
    }
  }

  /** White space or filler, in either case: letters are neither. */
  predicate Plain(c: char) { !IsSpace(c) && !IsFiller(c) }

  /**
   What is compared with the phrases: the text without the white space around it,
   the filler that follows it and the white space before that filler, in lower case.
   */
  lemma NormalizedExactly(pre: string, core: string, gap: string, fill: string, post: string, lower: char -> char)
    requires AllSpace(pre) && AllSpace(gap) && AllSpace(post)
    requires AllFiller(fill)
    requires if fill == "" then gap == "" else !IsSpace(fill[|fill|-1])
    requires forall c :: !Plain(c) ==> lower(c) == c
    requires core != "" && !IsSpace(lower(core[0])) && Plain(lower(core[|core|-1]))
    ensures Normalized(pre + ((core + (gap + fill)) + post), lower) == Lower(core, lower)
  {
    EndsPlain(core, lower);
    TrimmedText(pre, core, gap, fill, post);
    LowerKeepsTail(core, gap, fill, lower);
    FillerIsCut(Lower(core, lower), gap, fill);
    NormalizedFrom(pre + ((core + (gap + fill)) + post), core + (gap + fill), Lower(core, lower) + (gap + fill), lower);
  }

  lemma EndsPlain(core: string, lower: char -> char)
    requires forall c :: !Plain(c) ==> lower(c) == c
    requires core != "" && !IsSpace(lower(core[0])) && Plain(lower(core[|core|-1]))
    ensures !IsSpace(core[0]) && !IsSpace(core[|core|-1])
    ensures Lower(core, lower)[0] == lower(core[0]) && Lower(core, lower)[|core|-1] == lower(core[|core|-1])
  {
  }

  lemma NormalizedFrom(text: string, trimmed: string, lowered: string, lower: char -> char)
    requires TrimSpace(text) == trimmed && Lower(trimmed, lower) == lowered
    ensures Normalized(text, lower) == TrimSpace(TrimRight(lowered, IsFiller))
  {
  }

  lemma TrimmedText(pre: string, core: string, gap: string, fill: string, post: string)
    requires AllSpace(pre) && AllSpace(post) && if fill == "" then gap == "" else !IsSpace(fill[|fill|-1])
    requires core != "" && !IsSpace(core[0]) && !IsSpace(core[|core|-1])
    ensures TrimSpace(pre + ((core + (gap + fill)) + post)) == core + (gap + fill)
  {
    var body := core + (gap + fill);
    assert body[0] == core[0];
    assert body[|body| - 1] == if fill == "" then core[|core|-1] else fill[|fill|-1];
    TrimSpaceExactly(pre, body, post);
  }

  lemma LowerKeepsTail(core: string, gap: string, fill: string, lower: char -> char)
    requires AllSpace(gap) && AllFiller(fill)
    requires forall c :: !Plain(c) ==> lower(c) == c
    ensures Lower(core + (gap + fill), lower) == Lower(core, lower) + (gap + fill)
  {
    assert forall i :: 0 <= i < |gap + fill| ==> !Plain((gap + fill)[i]);
  }

  /** Cutting the filler, and then the white space before it, leaves the phrase. */
  lemma FillerIsCut(low: string, gap: string, fill: string)
    requires AllSpace(gap) && AllFiller(fill)
    requires low != "" && !IsSpace(low[0]) && Plain(low[|low|-1])
    ensures TrimSpace(TrimRight(low + (gap + fill), IsFiller)) == low
  {
    var n := FillerCutTo(low, gap + fill);
    assert forall k :: |gap| <= k < |gap + fill| ==> IsFiller((gap + fill)[k]);
    assert (gap + fill)[..n] == gap[..n];
    assert low + gap[..n] == "" + (low + gap[..n]);
    TrimSpaceExactly("", low, gap[..n]);
  }

  lemma {:induction false} FillerCutTo(low: string, tail: string) returns (n: nat)
    requires low != "" && !IsFiller(low[|low|-1])
    ensures n <= |tail| && (n > 0 ==> !IsFiller(tail[n - 1]))
    ensures TrimRight(low + tail, IsFiller) == low + tail[..n]
    decreases |tail|
  {
    n := |tail|;
    if tail == "" {
      assert low + tail == low == low + tail[..0];
    } else if IsFiller(tail[n - 1]) {
      assert (low + tail)[..|low + tail| - 1] == low + tail[..n - 1];
      var m := n - 1;
      n := FillerCutTo(low, tail[..m]);
      assert tail[..m][..n] == tail[..n];
    } else {
      assert tail[..n] == tail;
    }
  }
}
