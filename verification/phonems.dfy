/** The phoneme values the spoiler censor works on. `tools/phonems.py` is not part of
    this model; its `phonemes_str` is taken to be the concatenation of the symbols. */
module Phonems {

  /** A pitch breakpoint: percentage through the phoneme and pitch value. */
  datatype PitchPoint = PitchPoint(percent: int, pitch: int)

  datatype Phonem = Phonem(symbol: string, duration: nat, pitchModifiers: seq<PitchPoint>)

  /** `phonemes_str`: the symbols of a phoneme list, joined. */
  function Symbols(ps: seq<Phonem>): (s: string)
  {
    if |ps| == 0 then "" else ps[0].symbol + Symbols(ps[1..])
  }

  /** Sum of the durations. */
  function TotalDuration(ps: seq<Phonem>): (d: nat)
  {
    if |ps| == 0 then 0 else ps[0].duration + TotalDuration(ps[1..])
  }

  lemma {:induction false} TotalDurationAppend(a: seq<Phonem>, b: seq<Phonem>)
    ensures TotalDuration(a + b) == TotalDuration(a) + TotalDuration(b)
    decreases |a|
  {
    if |a| == 0 {
      assert a + b == b;
    } else {
      assert (a + b)[1..] == a[1..] + b;
      TotalDurationAppend(a[1..], b);
    }
  }

  /** Python's `ps[:n]`: the first `n` phonemes, or all of them when there are fewer. */
  function Head(ps: seq<Phonem>, n: nat): (r: seq<Phonem>)
    ensures |r| == if |ps| <= n then |ps| else n
    ensures r == ps[..|r|]
  {
    if |ps| <= n then ps else ps[..n]
  }

  /** Python's `ps[n:]`: what is left after the first `n` phonemes. */
  function Tail(ps: seq<Phonem>, n: nat): (r: seq<Phonem>)
    ensures Head(ps, n) + r == ps
    ensures n > 0 && |ps| > 0 ==> |r| < |ps|
  {
    if |ps| <= n then [] else ps[n..]
  }
}
