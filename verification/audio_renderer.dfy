/** The pure parts of `AudioRenderer`: resolving the synthesiser configuration
    (engine language, voice number, sex code, volume) from the message language and the
    voice parameters, and patching the two size fields of a canonical 44-byte PCM WAV
    header. The espeak/mbrola process calls are outside this model. */
module AudioRenderer {
  import opened Wrappers
  import opened Bytes
  import opened CookieParameters

  /** The engine language and the voice numbers available for one message language. */
  datatype LangEntry = LangEntry(engineLang: string, voices: seq<int>)

  const LangVoicesMapping: map<string, LangEntry> := map[
    "fr" := LangEntry("fr", [1, 2, 3, 4, 5, 6, 7]),
    "en" := LangEntry("us", [1, 2, 3]),
    "es" := LangEntry("es", [1, 2]),
    "de" := LangEntry("de", [4, 5, 6, 7])
  ]

  /** mbrola volume presets keyed by engine language and voice number. Each decimal stands
      for the nearest double, as in the source; only the keys matter to the proofs. */
  const VolumePresets: map<string, real> := map[
    "fr1" := 1.17138, "fr2" := 1.60851, "fr3" := 1.01283, "fr4" := 1.0964,
    "fr5" := 2.64384, "fr6" := 1.35412, "fr7" := 1.96092,
    "us1" := 1.658, "us2" := 1.7486, "us3" := 3.48104,
    "es1" := 3.26885, "es2" := 1.84053
  ]

  /** Volume passed to mbrola: the unit volume for German, otherwise half of a preset. */
  datatype Volume = UnitVolume | Preset(key: string, multiplier: real)

  datatype VoiceConfig = VoiceConfig(engineLang: string, voice: int, sex: int, volume: Volume)

  /** The exceptions the source can raise here. */
  datatype RenderError =
    | KeyError(key: string)       // a dict lookup on a missing key
    | StructError(value: int)     // `pack('<I', value)` outside the unsigned 32-bit range

  /** `'%d' % n` for a natural number: its digits, with no leading zero. */
  function DecimalString(n: nat): (s: string)
    ensures |s| >= 1
    ensures forall i :: 0 <= i < |s| ==> '0' <= s[i] <= '9'
    ensures s[0] != '0' || s == "0"
    ensures s == "0" <==> n == 0
  {
    if n < 10 then [(n + '0' as int) as char]
    else DecimalString(n / 10) + [((n % 10) + '0' as int) as char]
  }

  /** The number a string of decimal digits denotes. */
  function DigitsValue(s: string): (n: nat)
    requires forall i :: 0 <= i < |s| ==> '0' <= s[i] <= '9'
    ensures |s| > 0 && s[0] != '0' ==> n > 0
    decreases |s|
  {
    if |s| == 0 then 0
    else DigitsValue(s[..|s| - 1]) * 10 + (s[|s| - 1] as int - '0' as int)
  }

  /** Reading back the digits `DecimalString` writes gives the number. */
  lemma {:induction false} DecimalStringRoundTrip(n: nat)
    ensures DigitsValue(DecimalString(n)) == n
    decreases n
  {
    if n >= 10 {
      var s := DecimalString(n);
      DecimalStringRoundTrip(n / 10);
      assert s[..|s| - 1] == DecimalString(n / 10);
    }
  }

  /** Every digit string without a leading zero is what `DecimalString` writes for its
      value, so distinct numbers get distinct strings and the form is canonical. */
  lemma {:induction false} DigitsAreDecimalString(s: string)
    requires |s| >= 1 && forall i :: 0 <= i < |s| ==> '0' <= s[i] <= '9'
    requires |s| > 1 ==> s[0] != '0'
    ensures DecimalString(DigitsValue(s)) == s
    decreases |s|
  {
    if |s| > 1 {
      var p, c := s[..|s| - 1], s[|s| - 1];
      var v, d := DigitsValue(p), c as int - '0' as int;
      DigitsAreDecimalString(p);
      assert v > 0 by {
        assert p[0] == s[0];
      }
      LastDigit(v, d);
      assert DigitsValue(s) == v * 10 + d;
      assert DecimalString(v * 10 + d) == p + [c];
      assert s == p + [c];
    } else {
      var d := s[0] as int - '0' as int;
      assert DigitsValue(s) == d by {
        assert s[..0] == [];
      }
      assert DecimalString(d) == [s[0]];
    }
  }

  /** Splitting off the last decimal digit. */
  lemma LastDigit(v: nat, d: int)
    requires 0 <= d < 10
    ensures (v * 10 + d) / 10 == v && (v * 10 + d) % 10 == d
  {
  }

  /** The table entry for `lang`, the French one for a language the table does not know. */
  function LookupLang(lang: string): (e: LangEntry)
    ensures e.engineLang in {"fr", "us", "es", "de"}
    ensures |e.voices| > 0
    ensures forall i :: 0 <= i < |e.voices| ==> 1 <= e.voices[i] <= 7
  {
    if lang in LangVoicesMapping then LangVoicesMapping[lang] else LangVoicesMapping["fr"]
  }

  /** The sex code passed to espeak: French voices 2 and 4 are female (4), the other
      French voices male (1); other languages reuse the voice number. */
  function SexCode(engineLang: string, voice: int): (sex: int)
  {
    if engineLang != "fr" then voice
    else if voice in {2, 4} then 4 else 1
  }

  /** `_get_additional_params`: look the language up, pick the voice, then derive the
      rest from the voice. */
  function GetAdditionalParams(lang: string, params: VoiceParameters): (r: Result<VoiceConfig, RenderError>)
    ensures r.Success?
    ensures r.value.engineLang == LookupLang(lang).engineLang
    ensures r.value.voice in LookupLang(lang).voices
    ensures 0 <= params.voiceId < |LookupLang(lang).voices| ==> r.value.voice == LookupLang(lang).voices[params.voiceId]
  {
    ConfigFor(lang, ChooseVoice(LookupLang(lang), params.voiceId))
  }

  /** The configuration once the voice number is chosen: sex code and volume. */
  function ConfigFor(lang: string, voice: int): (r: Result<VoiceConfig, RenderError>)
    requires voice in LookupLang(lang).voices
    ensures r.Success?
    ensures r.value.engineLang == LookupLang(lang).engineLang && r.value.voice == voice
    ensures r.value.engineLang == "fr" ==> r.value.sex in {1, 4}
    ensures r.value.engineLang == "fr" ==> (r.value.sex == 4 <==> voice in {2, 4})
    ensures r.value.engineLang != "fr" ==> r.value.sex == voice
    ensures r.value.volume.UnitVolume? <==> r.value.engineLang == "de"
    ensures r.value.volume.Preset? ==>
      && r.value.volume.key in VolumePresets
      && r.value.volume.key == r.value.engineLang + DecimalString(voice)
      && r.value.volume.multiplier == VolumePresets[r.value.volume.key] * 0.5
      && r.value.volume.multiplier > 0.0
  {
    var entry := LookupLang(lang);
    var sex := SexCode(entry.engineLang, voice);
    if entry.engineLang == "de" then
      Success(VoiceConfig(entry.engineLang, voice, sex, UnitVolume))
    else
      var key := entry.engineLang + DecimalString(voice);
      PresetKeysCoverVoices(lang, voice);
      if key in VolumePresets then
        Success(VoiceConfig(entry.engineLang, voice, sex, Preset(key, VolumePresets[key] * 0.5)))
      else
        Failure(KeyError(key))
  }

  /** `voices[voice_id % len(voices)]`. */
  function ChooseVoice(entry: LangEntry, voiceId: int): (voice: int)
    requires |entry.voices| > 0
    ensures voice in entry.voices
    ensures 0 <= voiceId < |entry.voices| ==> voice == entry.voices[voiceId]
  {
    entry.voices[voiceId % |entry.voices|]
  }

  /** For every language except German, each voice of the language has a volume preset,
      so the preset lookup never raises. */
  lemma PresetKeysCoverVoices(lang: string, voice: int)
    requires LookupLang(lang).engineLang != "de"
    requires voice in LookupLang(lang).voices
    ensures LookupLang(lang).engineLang + DecimalString(voice) in VolumePresets
  {
    var e := LookupLang(lang);
    assert e in {LangVoicesMapping["fr"], LangVoicesMapping["en"], LangVoicesMapping["es"], LangVoicesMapping["de"]};
    if e.engineLang == "fr" {
      assert voice in {1, 2, 3, 4, 5, 6, 7};
      FrenchPresets(voice);
    } else if e.engineLang == "us" {
      assert e == LangVoicesMapping["en"];
      assert voice in {1, 2, 3};
      EnglishPresets(voice);
    } else {
      assert e == LangVoicesMapping["es"];
      assert voice in {1, 2};
      SpanishPresets(voice);
    }
  }

  lemma FrenchPresets(voice: int)
    requires 1 <= voice <= 7
    ensures "fr" + DecimalString(voice) in VolumePresets
  {
    var key := "fr" + DecimalString(voice);
    if voice == 1 { assert key == "fr1"; }
    else if voice == 2 { assert key == "fr2"; }
    else if voice == 3 { assert key == "fr3"; }
    else if voice == 4 { assert key == "fr4"; }
    else if voice == 5 { assert key == "fr5"; }
    else if voice == 6 { assert key == "fr6"; }
    else { assert key == "fr7"; }
  }

  lemma EnglishPresets(voice: int)
    requires 1 <= voice <= 3
    ensures "us" + DecimalString(voice) in VolumePresets
  {
    var key := "us" + DecimalString(voice);
    if voice == 1 { assert key == "us1"; }
    else if voice == 2 { assert key == "us2"; }
    else { assert key == "us3"; }
  }

  lemma SpanishPresets(voice: int)
    requires 1 <= voice <= 2
    ensures "es" + DecimalString(voice) in VolumePresets
  {
    var key := "es" + DecimalString(voice);
    if voice == 1 { assert key == "es1"; }
    else { assert key == "es2"; }
  }

  /** Conversely, every preset belongs to a voice of some non-German language. */
  lemma EveryPresetIsUsed(key: string)
    requires key in VolumePresets
    ensures exists lang, i ::
      && lang in LangVoicesMapping
      && LangVoicesMapping[lang].engineLang != "de"
      && 0 <= i < |LangVoicesMapping[lang].voices|
      && key == LangVoicesMapping[lang].engineLang + DecimalString(LangVoicesMapping[lang].voices[i])
  {
    var lang, i := PresetOwner(key);
  }

  /** The message language and voice index a preset key was written for. */
  lemma PresetOwner(key: string) returns (lang: string, i: int)
    requires key in VolumePresets
    ensures lang in LangVoicesMapping && LangVoicesMapping[lang].engineLang != "de"
    ensures 0 <= i < |LangVoicesMapping[lang].voices|
    ensures key == LangVoicesMapping[lang].engineLang + DecimalString(LangVoicesMapping[lang].voices[i])
  {
    if key in {"fr1", "fr2", "fr3", "fr4", "fr5", "fr6", "fr7"} {
      lang := "fr";
      i := FrenchOwner(key);
      var e := LangVoicesMapping[lang];
      assert e == LangEntry("fr", [1, 2, 3, 4, 5, 6, 7]);
      assert e.engineLang == "fr" && e.voices[i] == i + 1;
    } else if key in {"us1", "us2", "us3"} {
      lang := "en";
      i := EnglishOwner(key);
      var e := LangVoicesMapping[lang];
      assert e == LangEntry("us", [1, 2, 3]);
      assert e.engineLang == "us" && e.voices[i] == i + 1;
    } else {
      lang := "es";
      i := SpanishOwner(key);
      var e := LangVoicesMapping[lang];
      assert e == LangEntry("es", [1, 2]);
      assert e.engineLang == "es" && e.voices[i] == i + 1;
    }
  }

  lemma FrenchOwner(key: string) returns (i: int)
    requires key in {"fr1", "fr2", "fr3", "fr4", "fr5", "fr6", "fr7"}
    ensures 0 <= i < 7 && key == "fr" + DecimalString(i + 1)
  {
    if key == "fr1" { i := 0; }
    else if key == "fr2" { i := 1; }
    else if key == "fr3" { i := 2; }
    else if key == "fr4" { i := 3; }
    else if key == "fr5" { i := 4; }
    else if key == "fr6" { i := 5; }
    else { i := 6; }
    assert key == "fr" + [key[2]];
  }

  lemma EnglishOwner(key: string) returns (i: int)
    requires key in {"us1", "us2", "us3"}
    ensures 0 <= i < 3 && key == "us" + DecimalString(i + 1)
  {
    if key == "us1" { i := 0; }
    else if key == "us2" { i := 1; }
    else { i := 2; }
    assert key == "us" + [key[2]];
  }

  lemma SpanishOwner(key: string) returns (i: int)
    requires key in {"es1", "es2"}
    ensures 0 <= i < 2 && key == "es" + DecimalString(i + 1)
  {
    if key == "es1" { i := 0; }
    else { i := 1; }
    assert key == "es" + [key[2]];
  }

  /** A language missing from the table is rendered exactly like French. */
  lemma UnknownLangFallsBackToFrench(lang: string, params: VoiceParameters)
    requires lang !in LangVoicesMapping
    ensures GetAdditionalParams(lang, params) == GetAdditionalParams("fr", params)
  {
  }

  /** The voice number is chosen modulo the language's voice count: voice ids that differ
      by that count select the same configuration. */
  lemma VoiceIdIsTakenModulo(lang: string, params: VoiceParameters)
    ensures var shifted := params.(voiceId := params.voiceId + |LookupLang(lang).voices|);
      GetAdditionalParams(lang, shifted) == GetAdditionalParams(lang, params)
  {
    var entry, a := LookupLang(lang), params.voiceId;
    var n := |entry.voices|;
    assert n in {7, 3, 2, 4};
    VoiceCountPeriod(a, n);
    assert ChooseVoice(entry, a + n) == ChooseVoice(entry, a);
  }

  /** Adding a voice count does not change the remainder by it. */
  lemma VoiceCountPeriod(a: int, n: int)
    requires n in {7, 3, 2, 4}
    ensures (a + n) % n == a % n
  {
    // One branch per voice count, so each remainder is by a literal divisor.
    if n == 7 {
      assert (a + 7) % 7 == a % 7;
    } else if n == 3 {
      assert (a + 3) % 3 == a % 3;
    } else if n == 2 {
      assert (a + 2) % 2 == a % 2;
    } else {
      assert (a + 4) % 4 == a % 4;
    }
  }

  /** Every voice of a language is picked by some voice id, the first ones by the ids
      0, 1, 2, ... themselves, so no voice of the table is unreachable. */
  lemma EveryVoiceIsChosen(lang: string, i: int)
    requires 0 <= i < |LookupLang(lang).voices|
    ensures exists params: VoiceParameters ::
      && 0 <= params.voiceId < 256
      && GetAdditionalParams(lang, params).value.voice == LookupLang(lang).voices[i]
  {
    var params := VoiceParameters(MinSpeed, 0, i);
    assert GetAdditionalParams(lang, params).value.voice == ChooseVoice(LookupLang(lang), i);
  }

  /** `_wav_format`: rewrite the RIFF chunk size (bytes 4..7) and the data chunk size
      (bytes 40..43). `pack('<I', …)` raises on a negative or too large size, which is
      the `Failure` case. */
  function WavFormat(wav: seq<Byte>): (r: Result<seq<Byte>, RenderError>)
    ensures r.Success? <==> 44 <= |wav| && |wav| - 8 < Two32
    ensures r.Success? ==>
      && |r.value| == |wav|
      && DecodeLE32(r.value[4..8]) == |wav| - 8
      && DecodeLE32(r.value[40..44]) == |wav| - 44
      && (forall i :: 0 <= i < |wav| && !(4 <= i < 8) && !(40 <= i < 44) ==> r.value[i] == wav[i])
  {
    if |wav| < 8 || |wav| - 8 >= Two32 then
      Failure(StructError(|wav| - 8))
    else if |wav| < 44 then
      Failure(StructError(|wav| - 44))
    else
      var out := wav[..4] + EncodeLE32(|wav| - 8) + wav[8..40] + EncodeLE32(|wav| - 44) + wav[44..];
      assert out[4..8] == EncodeLE32(|wav| - 8);
      assert out[40..44] == EncodeLE32(|wav| - 44);
      DecodeEncode(|wav| - 8);
      DecodeEncode(|wav| - 44);
      Success(out)
  }

  /** A header whose two size fields are already right is left as it is. */
  lemma WavFormatKeepsCorrectHeader(wav: seq<Byte>)
    requires 44 <= |wav| && |wav| - 8 < Two32
    requires DecodeLE32(wav[4..8]) == |wav| - 8 && DecodeLE32(wav[40..44]) == |wav| - 44
    ensures WavFormat(wav) == Success(wav)
  {
    var out := WavFormat(wav).value;
    EncodeDecode(wav[4..8]);
    EncodeDecode(wav[40..44]);
    EncodeDecode(out[4..8]);
    EncodeDecode(out[40..44]);
    assert out[4..8] == wav[4..8];
    assert out[40..44] == wav[40..44];
    forall i | 0 <= i < |wav|
      ensures out[i] == wav[i]
    {
      if 4 <= i < 8 {
        assert out[i] == out[4..8][i - 4];
      } else if 40 <= i < 44 {
        assert out[i] == out[40..44][i - 40];
      }
    }
    assert out == wav;
  }

  /** Patching twice is patching once. */
  lemma WavFormatIdempotent(wav: seq<Byte>)
    requires WavFormat(wav).Success?
    ensures WavFormat(WavFormat(wav).value) == WavFormat(wav)
  {
    WavFormatKeepsCorrectHeader(WavFormat(wav).value);
  }
}
