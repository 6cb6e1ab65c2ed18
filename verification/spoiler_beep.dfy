/** `SpoilerBipEffect`: the phonemes spoken between an opening and a closing tag word are
    replaced by a beep: a stop, a vowel as long as those phonemes were, a stop (the stops
    add 331 ms, so the beep is longer than the span it replaces). The tag words' phonemic
    signatures are matched on the joined symbols of the next three (opening) or four
    (closing) phonemes. Finding the `**…**` occurrences and rewriting them into tag
    words is not part of this model: the occurrence list and the synthesiser's phonemes
    of the rewritten text are inputs. */
module SpoilerBeep {
  import opened Wrappers
  import opened Phonems
  import opened Seqs

  /** The phonemic forms of the opening ("king") and closing ("gink") tag words. */
  datatype TagSignature = TagSignature(opening: string, closing: string)

  const TagsPhonems: map<string, TagSignature> := map[
    "en" := TagSignature("k_hIN", "dZINk"),
    "fr" := TagSignature("kiN", "ZiNk"),
    "de" := TagSignature("kIN", "gINk"),
    "es" := TagSignature("kin", "xink")
  ]

  /** Number of phonemes the opening and closing signatures are matched against. */
  const OpeningWidth: nat := 3
  const ClosingWidth: nat := 4

  const BeepPitch: int := 103 * 3
  const OpeningStop: Phonem := Phonem("b", 103, [])
  const ClosingStop: Phonem := Phonem("p", 228, [])

  /** The pitch contour of the beep vowel: held at `BeepPitch` from start to end. */
  const FlatContour: seq<PitchPoint> := [PitchPoint(0, BeepPitch), PitchPoint(80, BeepPitch), PitchPoint(100, BeepPitch)]

  /** German uses a different "i" phoneme. */
  function BeepVowel(lang: string): (symbol: string)
  {
    if lang == "de" then "i:" else "i"
  }

  /** `_gen_beep`: a stop, a flat-pitched vowel of the requested length, a stop. */
  function GenBeep(duration: nat, lang: string): (r: seq<Phonem>)
    ensures |r| == 3 && r[0].symbol == "b" && r[2].symbol == "p"
    ensures r[0].duration == 103 && r[1].duration == duration && r[2].duration == 228
    ensures r[0].pitchModifiers == [] && r[2].pitchModifiers == []
    ensures TotalDuration(r) == duration + 331
    ensures r[1].symbol == "i:" <==> lang == "de"
    ensures r[1].symbol == "i" <==> lang != "de"
    ensures |r[1].pitchModifiers| == 3
    ensures r[1].pitchModifiers[0].percent == 0 && r[1].pitchModifiers[1].percent == 80
    ensures r[1].pitchModifiers[2].percent == 100
    ensures forall k :: 0 <= k < |r[1].pitchModifiers| ==> r[1].pitchModifiers[k].pitch == 309
  {
    var r := [OpeningStop, Phonem(BeepVowel(lang), duration, FlatContour), ClosingStop];
    assert TotalDuration(r) == 103 + TotalDuration(r[1..]);
    assert TotalDuration(r[1..]) == duration + TotalDuration(r[2..]);
    assert TotalDuration(r[2..]) == 228 + TotalDuration(r[3..]);
    r
  }

  /** A phoneme that only a beep contains. */
  predicate IsBeepPhonem(p: Phonem, lang: string)
  {
    p == OpeningStop || p == ClosingStop || (p.symbol == BeepVowel(lang) && p.pitchModifiers == FlatContour)
  }

  /** `in_beep` together with the buffer it collects. */
  datatype ScanState = Normal | InBeep(buffer: seq<Phonem>)

  predicate OpensAt(tags: TagSignature, ps: seq<Phonem>)
  {
    Symbols(Head(ps, OpeningWidth)) == tags.opening
  }

  predicate ClosesAt(tags: TagSignature, ps: seq<Phonem>)
  {
    Symbols(Head(ps, ClosingWidth)) == tags.closing
  }

  /** The beep for a closed span; nothing for an empty one. */
  function BeepFor(buffer: seq<Phonem>, lang: string): (beep: seq<Phonem>)
  {
    if |buffer| > 0 then GenBeep(TotalDuration(buffer), lang) else []
  }

  /** The scanning loop of `process`, from a given state, as the output it still appends.
      Every step consumes at least one phoneme. */
  function Scan(tags: TagSignature, lang: string, ps: seq<Phonem>, state: ScanState): (out: seq<Phonem>)
    decreases |ps|
  {
    if |ps| == 0 then []
    else if state.Normal? && OpensAt(tags, ps) then
      Scan(tags, lang, Tail(ps, OpeningWidth), InBeep([]))
    else if state.InBeep? && ClosesAt(tags, ps) then
      BeepFor(state.buffer, lang) + Scan(tags, lang, Tail(ps, ClosingWidth), Normal)
    else if state.Normal? then
      [ps[0]] + Scan(tags, lang, ps[1..], Normal)
    else
      Scan(tags, lang, ps[1..], InBeep(state.buffer + [ps[0]]))
  }

  /** The scan invents nothing: every phoneme it outputs is an input phoneme or part of
      a beep. */
  lemma {:induction false} ScanOutputIsInputOrBeep(tags: TagSignature, lang: string, ps: seq<Phonem>, state: ScanState)
    ensures forall p :: p in Scan(tags, lang, ps, state) ==> p in ps || IsBeepPhonem(p, lang)
    decreases |ps|
  {
    if |ps| == 0 {
    } else if state.Normal? && OpensAt(tags, ps) {
      TailIsSuffix(ps, OpeningWidth);
      ScanOutputIsInputOrBeep(tags, lang, Tail(ps, OpeningWidth), InBeep([]));
    } else if state.InBeep? && ClosesAt(tags, ps) {
      TailIsSuffix(ps, ClosingWidth);
      ScanOutputIsInputOrBeep(tags, lang, Tail(ps, ClosingWidth), Normal);
      BeepIsBeepPhonems(state.buffer, lang);
    } else if state.Normal? {
      ScanOutputIsInputOrBeep(tags, lang, ps[1..], Normal);
    } else {
      ScanOutputIsInputOrBeep(tags, lang, ps[1..], InBeep(state.buffer + [ps[0]]));
    }
  }

  /** Every phoneme of a tail is a phoneme of the whole list. */
  lemma TailIsSuffix(ps: seq<Phonem>, n: nat)
    ensures forall p :: p in Tail(ps, n) ==> p in ps
  {
    if n <= |ps| {
      assert Tail(ps, n) == ps[n..];
    }
  }

  /** A beep is made of beep phonemes only. */
  lemma BeepIsBeepPhonems(buffer: seq<Phonem>, lang: string)
    ensures forall p :: p in BeepFor(buffer, lang) ==> IsBeepPhonem(p, lang)
  {
  }

  /** The exception of the scan: the tag table has no entry for the language. */
  datatype SpoilerError = KeyError(lang: string)

  /** The scan of a whole phoneme list. The tag lookup sits inside the loop, so an unknown
      language raises only when there is a phoneme to look at. */
  function ReplaceTagged(ps: seq<Phonem>, lang: string): (r: Result<seq<Phonem>, SpoilerError>)
    ensures r.Failure? <==> |ps| > 0 && lang !in TagsPhonems
    ensures |ps| == 0 ==> r == Success([])
  {
    if |ps| == 0 then Success([])
    else if lang !in TagsPhonems then Failure(KeyError(lang))
    else Success(Scan(TagsPhonems[lang], lang, ps, Normal))
  }

  /** What `process` returns: the text untouched, or the rewritten phoneme list. */
  datatype Rendering = AsText(text: string) | AsPhonemes(phonems: seq<Phonem>)

  /** `process`, given the `**…**` occurrences found in `text` and the synthesiser's
      phonemes of the tagged text. */
  function Process(text: string, occurrences: seq<string>, phonems: seq<Phonem>, lang: string): (r: Result<Rendering, SpoilerError>)
    ensures |occurrences| == 0 ==> r == Success(AsText(text))
    ensures |occurrences| > 0 ==> (r.Failure? <==> ReplaceTagged(phonems, lang).Failure?)
    ensures |occurrences| > 0 && r.Success? ==> r.value == AsPhonemes(ReplaceTagged(phonems, lang).value)
  {
    if |occurrences| == 0 then Success(AsText(text))
    else
      var out :- ReplaceTagged(phonems, lang);
      Success(AsPhonemes(out))
  }

  /** The loop of `process` as written: `in_beep` and `buffer` as two variables, the tag
      lookup on every iteration. */
  method ScanLoop(input: seq<Phonem>, lang: string) returns (r: Result<seq<Phonem>, SpoilerError>)
    ensures r == ReplaceTagged(input, lang)
  {
    var phonems := input;
    var inBeep := false;
    var output: seq<Phonem> := [];
    var buffer: seq<Phonem> := [];
    while |phonems| > 0
      invariant |phonems| < |input| ==> lang in TagsPhonems
      invariant lang in TagsPhonems ==>
        output + Scan(TagsPhonems[lang], lang, phonems, if inBeep then InBeep(buffer) else Normal)
        == Scan(TagsPhonems[lang], lang, input, Normal)
      decreases |phonems|
    {
      if lang !in TagsPhonems {
        return Failure(KeyError(lang));
      }
      var tags := TagsPhonems[lang];
      if OpensAt(tags, phonems) && !inBeep {
        assert Scan(tags, lang, phonems, Normal) == Scan(tags, lang, Tail(phonems, OpeningWidth), InBeep([]));
        inBeep, buffer := true, [];
        phonems := Tail(phonems, OpeningWidth);
      } else if ClosesAt(tags, phonems) && inBeep {
        ghost var later := Scan(tags, lang, Tail(phonems, ClosingWidth), Normal);
        assert Scan(tags, lang, phonems, InBeep(buffer)) == BeepFor(buffer, lang) + later;
        ConcatAssoc(output, BeepFor(buffer, lang), later);
        inBeep := false;
        if |buffer| > 0 {
          output := output + GenBeep(TotalDuration(buffer), lang);
        } else {
          assert output + BeepFor(buffer, lang) == output;
        }
        phonems := Tail(phonems, ClosingWidth);
      } else if !inBeep {
        CopyOne(tags, lang, phonems);
        ConcatAssoc(output, [phonems[0]], Scan(tags, lang, phonems[1..], Normal));
        output := output + [phonems[0]];
        phonems := phonems[1..];
      } else {
        assert Scan(tags, lang, phonems, InBeep(buffer)) == Scan(tags, lang, phonems[1..], InBeep(buffer + [phonems[0]]));
        buffer := buffer + [phonems[0]];
        phonems := phonems[1..];
      }
    }
    if |input| == 0 {
      return Success([]);
    }
    assert output + [] == output;
    r := Success(output);
  }

  /** When no opening signature ever lines up in the normal state, the output is the
      input. Closing signatures met in the normal state are copied like any phoneme. */
  lemma {:induction false} ScanWithoutOpeningIsIdentity(tags: TagSignature, lang: string, ps: seq<Phonem>)
    requires forall i :: 0 <= i < |ps| ==> !OpensAt(tags, ps[i..])
    ensures Scan(tags, lang, ps, Normal) == ps
    decreases |ps|
  {
    if |ps| > 0 {
      assert ps[0..] == ps;
      forall i | 0 <= i < |ps| - 1
        ensures !OpensAt(tags, ps[1..][i..])
      {
        assert ps[1..][i..] == ps[i + 1..];
      }
      ScanWithoutOpeningIsIdentity(tags, lang, ps[1..]);
    }
  }

  /** In the normal state, everything before the first opening signature is copied to
      the output in order, whatever it contains. */
  lemma {:induction false} ScanCopiesPrefix(tags: TagSignature, lang: string, ps: seq<Phonem>, k: nat)
    requires k <= |ps|
    requires forall i :: 0 <= i < k ==> !OpensAt(tags, ps[i..])
    ensures Scan(tags, lang, ps, Normal) == ps[..k] + Scan(tags, lang, ps[k..], Normal)
    decreases k
  {
    if k > 0 {
      assert ps[0..] == ps;
      NoOpeningAfterFirst(tags, ps, k);
      CopyOne(tags, lang, ps);
      ScanCopiesPrefix(tags, lang, ps[1..], k - 1);
      assert ps[1..][k - 1..] == ps[k..];
      PrependToPrefix(ps, k, Scan(tags, lang, ps[k..], Normal));
    }
  }

  /** In the normal state a phoneme that does not start an opening signature is copied. */
  lemma CopyOne(tags: TagSignature, lang: string, ps: seq<Phonem>)
    requires |ps| > 0 && !OpensAt(tags, ps)
    ensures Scan(tags, lang, ps, Normal) == [ps[0]] + Scan(tags, lang, ps[1..], Normal)
  {
  }

  /** Dropping the first phoneme keeps the "no opening signature before k" condition. */
  lemma NoOpeningAfterFirst(tags: TagSignature, ps: seq<Phonem>, k: nat)
    requires 0 < k <= |ps|
    requires forall i :: 0 <= i < k ==> !OpensAt(tags, ps[i..])
    ensures forall i :: 0 <= i < k - 1 ==> !OpensAt(tags, ps[1..][i..])
  {
    forall i | 0 <= i < k - 1
      ensures !OpensAt(tags, ps[1..][i..])
    {
      assert ps[1..][i..] == ps[i + 1..];
    }
  }

  /** Putting the first phoneme back in front of the copied prefix. */
  lemma PrependToPrefix(ps: seq<Phonem>, k: nat, later: seq<Phonem>)
    requires 0 < k <= |ps|
    ensures [ps[0]] + (ps[1..][..k - 1] + later) == ps[..k] + later
  {
    assert [ps[0]] + ps[1..][..k - 1] == ps[..k];
  }

  /** Inside a beep, everything before the first closing signature goes to the buffer,
      opening signatures included. */
  lemma {:induction false} ScanBuffersUntilClosing(tags: TagSignature, lang: string, ps: seq<Phonem>, buffer: seq<Phonem>, k: nat)
    requires k <= |ps|
    requires forall i :: 0 <= i < k ==> !ClosesAt(tags, ps[i..])
    ensures Scan(tags, lang, ps, InBeep(buffer)) == Scan(tags, lang, ps[k..], InBeep(buffer + ps[..k]))
    decreases k
  {
    if k == 0 {
      assert buffer + ps[..0] == buffer;
    } else {
      assert ps[0..] == ps;
      NoClosingAfterFirst(tags, ps, k);
      assert Scan(tags, lang, ps, InBeep(buffer)) == Scan(tags, lang, ps[1..], InBeep(buffer + [ps[0]]));
      ScanBuffersUntilClosing(tags, lang, ps[1..], buffer + [ps[0]], k - 1);
      assert ps[1..][k - 1..] == ps[k..];
      AppendToBuffer(buffer, ps, k);
    }
  }

  /** Dropping the first phoneme keeps the "no closing signature before k" condition. */
  lemma NoClosingAfterFirst(tags: TagSignature, ps: seq<Phonem>, k: nat)
    requires 0 < k <= |ps|
    requires forall i :: 0 <= i < k ==> !ClosesAt(tags, ps[i..])
    ensures forall i :: 0 <= i < k - 1 ==> !ClosesAt(tags, ps[1..][i..])
  {
    forall i | 0 <= i < k - 1
      ensures !ClosesAt(tags, ps[1..][i..])
    {
      assert ps[1..][i..] == ps[i + 1..];
    }
  }

  /** Buffering the first phoneme, then the next k - 1, buffers the first k. */
  lemma AppendToBuffer(buffer: seq<Phonem>, ps: seq<Phonem>, k: nat)
    requires 0 < k <= |ps|
    ensures buffer + [ps[0]] + ps[1..][..k - 1] == buffer + ps[..k]
  {
    assert [ps[0]] + ps[1..][..k - 1] == ps[..k];
  }

  /** A span whose closing signature never comes is dropped: nothing more is output. */
  lemma UnterminatedSpanIsDropped(tags: TagSignature, lang: string, ps: seq<Phonem>, buffer: seq<Phonem>)
    requires forall i :: 0 <= i < |ps| ==> !ClosesAt(tags, ps[i..])
    ensures Scan(tags, lang, ps, InBeep(buffer)) == []
  {
    ScanBuffersUntilClosing(tags, lang, ps, buffer, |ps|);
    assert ps[|ps|..] == [];
  }

  /** The censoring step: an opening signature, a span that holds no closing signature,
      then a closing signature become one beep whose vowel lasts as long as the span and
      whose two stops add 331 ms (nothing for an empty span), and scanning resumes in the
      normal state. */
  lemma SpanBecomesBeep(tags: TagSignature, lang: string, opening: seq<Phonem>, span: seq<Phonem>,
                        closing: seq<Phonem>, rest: seq<Phonem>)
    requires |opening| == OpeningWidth && Symbols(opening) == tags.opening
    requires |closing| == ClosingWidth && Symbols(closing) == tags.closing
    requires forall i :: 0 <= i < |span| ==> !ClosesAt(tags, (span + closing + rest)[i..])
    ensures Scan(tags, lang, opening + span + closing + rest, Normal)
      == BeepFor(span, lang) + Scan(tags, lang, rest, Normal)
    ensures |span| > 0 ==> TotalDuration(BeepFor(span, lang)) == TotalDuration(span) + 331
  {
    var tail := closing + rest;
    assert span + closing + rest == span + tail;
    assert opening + span + closing + rest == opening + (span + tail);
    OpeningStartsBeep(tags, lang, opening, span + tail);
    SpanIsBuffered(tags, lang, span, tail);
    ClosingEmitsBeep(tags, lang, closing, rest, span);
  }

  /** From an empty buffer, a span without a closing signature is buffered whole. */
  lemma SpanIsBuffered(tags: TagSignature, lang: string, span: seq<Phonem>, after: seq<Phonem>)
    requires forall i :: 0 <= i < |span| ==> !ClosesAt(tags, (span + after)[i..])
    ensures Scan(tags, lang, span + after, InBeep([])) == Scan(tags, lang, after, InBeep(span))
  {
    var ps := span + after;
    ScanBuffersUntilClosing(tags, lang, ps, [], |span|);
    assert ps[..|span|] == span;
    assert ps[|span|..] == after;
    assert [] + span == span;
  }

  /** An opening signature met in the normal state is consumed and starts an empty
      buffer. */
  lemma OpeningStartsBeep(tags: TagSignature, lang: string, opening: seq<Phonem>, after: seq<Phonem>)
    requires |opening| == OpeningWidth && Symbols(opening) == tags.opening
    ensures Scan(tags, lang, opening + after, Normal) == Scan(tags, lang, after, InBeep([]))
  {
    var ps := opening + after;
    assert Head(ps, OpeningWidth) == opening;
    assert Tail(ps, OpeningWidth) == after;
  }

  /** A closing signature met inside a beep is consumed, emits the beep for the buffer
      (nothing for an empty buffer) and returns to the normal state. */
  lemma ClosingEmitsBeep(tags: TagSignature, lang: string, closing: seq<Phonem>, rest: seq<Phonem>, buffer: seq<Phonem>)
    requires |closing| == ClosingWidth && Symbols(closing) == tags.closing
    ensures Scan(tags, lang, closing + rest, InBeep(buffer)) == BeepFor(buffer, lang) + Scan(tags, lang, rest, Normal)
  {
    var ps := closing + rest;
    assert Head(ps, ClosingWidth) == closing;
    assert Tail(ps, ClosingWidth) == rest;
  }

  /** With no `**…**` occurrence the text is returned as it is, whatever the phonemes. */
  lemma NoOccurrenceKeepsText(text: string, phonems1: seq<Phonem>, phonems2: seq<Phonem>, lang: string)
    ensures Process(text, [], phonems1, lang) == Process(text, [], phonems2, lang) == Success(AsText(text))
  {
  }
}
