# loult-ng voice tools — a Dafny model

This project models the pure core of `tools/tools.py` from loult-ng, the chat bot that
speaks its users' messages: the voice and name-table parameters derived from a user's
cookie hash, the synthesiser configuration resolved from a language and a voice id, the
WAV header patch applied to mbrola's output, the per-user effect slots and flood window
of `UserState`, and the spoiler censor `SpoilerBipEffect`, which replaces the phonemes
spoken between two tag words with a beep: a stop, a vowel as long as those phonemes, and
a stop, the two stops adding 331 ms. The class docstring (tools/tools.py:221-222) calls
it "an equally long beep"; the model follows `_gen_beep`.

Modules (one file each):

- `Wrappers` — `Option` and `Result`; a Python exception becomes a `Failure`.
- `Seqs` — a shared fact about sequence concatenation.
- `Bytes` — bytes and the little-endian 32-bit field written by `pack('<I', n)`.
- `CookieParameters` — `VoiceParameters.from_cookie_hash` and the `poke_id` formula.
- `AudioRenderer` — `_get_additional_params` and `_wav_format`.
- `EffectSlots` — the five bounded effect lists and `add_effect`.
- `FloodWindow` — `_refresh_timestamps`, `log_msg`, `is_flooding` on integer timestamps.
- `UserStates` — the `UserState` record and its operations.
- `Phonems` — phonemes, their joined symbols and total duration, Python-style slicing.
- `SpoilerBeep` — `_gen_beep`, the scanning loop of `process`, and `process` itself.

Three behaviours of the code of `tools/tools.py`, and how the model treats each:

- `_get_additional_params` indexes `volumes_presets` directly (tools/tools.py:155), so a
  missing key would raise `KeyError`. The model keeps that branch and proves it is never
  taken.
- Setting `has_been_warned` to true schedules a fresh `call_later` reset every time
  (tools/tools.py:78-84) and cancels none of the pending ones. The timer is not modelled.
- `process` indexes `_tags_phonems[lang]` (tools/tools.py:258) with no fallback, so for a
  language outside en/fr/de/es it raises `KeyError` as soon as there is a phoneme to scan,
  while `_get_additional_params` falls back to French for such a language
  (tools/tools.py:145). `ReplaceTagged` models that error.

## Model

| member | source | states |
|---|---|---|
| CookieParameters.VoiceFromCookieHash | tools/tools.py:40-44 | for a hash of at least 6 bytes, speed lies in [90,169], pitch in [0,99], and the voice id is byte 1 (a byte) |
| CookieParameters.VoiceReadsOnlyBytes015 | tools/tools.py:41-44 | hashes agreeing on bytes 0, 1 and 5 give the same voice parameters |
| CookieParameters.VoiceRangeIsReached | tools/tools.py:42-44 | the bounds are tight: every speed in [90,169], pitch in [0,99] and byte voice id comes from some hash |
| CookieParameters.BitOrDisjoint | tools/tools.py:58 | Python's `|` of a value below 2^k and a value shifted left by k equals their sum |
| CookieParameters.OrShiftIsLittleEndian | tools/tools.py:58 | `hash[2] | (hash[3] << 8)` equals `hash[2] + 256 * hash[3]` |
| CookieParameters.PokeIdFromCookieHash | tools/tools.py:54-58 | the index is `(hash[2] + 256*hash[3]) % n + 1` and lies in [1, n] for every table size n > 0 |
| CookieParameters.PokeIdIsOnto | tools/tools.py:58 | for a table of at most 65536 names, every index in [1, n] comes from some hash |
| Bytes.DecodeEncode | tools/tools.py:160 | reading back a packed `<I` field gives the packed value |
| Bytes.EncodeDecode | tools/tools.py:160 | packing the value read from four bytes gives the same four bytes |
| Bytes.EncodeInjective | tools/tools.py:160 | two values packed to the same four bytes are equal |
| AudioRenderer.DecimalString | tools/tools.py:155 | `'%d' % n` is a non-empty string of decimal digits without a leading zero, and it is "0" exactly for 0 |
| AudioRenderer.DigitsValue | tools/tools.py:155 | a digit string that does not start with '0' denotes a positive number |
| AudioRenderer.DecimalStringRoundTrip | tools/tools.py:155 | reading back the digits written for n gives n |
| AudioRenderer.DigitsAreDecimalString | tools/tools.py:155 | every digit string without a leading zero is the string written for its value, so the decimal form is canonical and distinct voices get distinct keys |
| AudioRenderer.LookupLang | tools/tools.py:135-138 | the entry for any language has engine language fr/us/es/de and a non-empty tuple of voices numbered 1..7 |
| AudioRenderer.GetAdditionalParams | tools/tools.py:143-157 | the resolution never fails, uses the engine language of the table entry, and picks a voice of that language's tuple, the one at index `voice_id` when that is below the voice count |
| AudioRenderer.ChooseVoice | tools/tools.py:146 | `voices[voice_id % len(voices)]` is a member of the tuple for every voice id, negative ones included, and an id below the voice count picks the voice at that index |
| AudioRenderer.EveryVoiceIsChosen | tools/tools.py:146 | every voice of a language's tuple is picked by some byte-sized voice id |
| AudioRenderer.ConfigFor | tools/tools.py:148-157 | the sex code is 4 exactly for French voices 2 and 4, 1 for other French voices, the voice number otherwise; German gets the unit volume, every other language the preset `lang+voice`, which exists, halved and positive |
| AudioRenderer.PresetKeysCoverVoices | tools/tools.py:135-155 | for every non-German language and each of its voices the key `lang+voice` is in the preset table |
| AudioRenderer.EveryPresetIsUsed | tools/tools.py:135-141 | conversely every preset key is `lang+voice` for some non-German language and one of its voices |
| AudioRenderer.UnknownLangFallsBackToFrench | tools/tools.py:145 | a language missing from the table resolves exactly as "fr" |
| AudioRenderer.VoiceIdIsTakenModulo | tools/tools.py:146 | voice ids that differ by the language's voice count resolve to the same configuration |
| AudioRenderer.WavFormat | tools/tools.py:159-160 | it succeeds exactly when 44 <= length and length - 8 < 2^32; then the length is kept, bytes 4..7 read back as length - 8, bytes 40..43 as length - 44, and every other byte is unchanged |
| AudioRenderer.WavFormatKeepsCorrectHeader | tools/tools.py:160 | a WAV whose two size fields are already right comes back unchanged |
| AudioRenderer.WavFormatIdempotent | tools/tools.py:160 | patching twice equals patching once |
| EffectSlots.FirstIn | tools/tools.py:104-109 | the index found is of a category the effect belongs to, no earlier category matches, and none is found only when no category matches |
| EffectSlots.Target | tools/tools.py:103-109 | the effect is filed under the category of least rank it belongs to, and under none exactly when it belongs to none |
| EffectSlots.Push | tools/tools.py:106-108 | the new effect ends the list, and a list of at most five becomes the last five of old list plus new effect |
| EffectSlots.AddOne | tools/tools.py:103-109 | lists stay at most five long; only the target list changes and it ends with the effect; an effect of no category changes nothing |
| EffectSlots.AddEffect | tools/tools.py:93-109 | inserting a single effect or an unpacked group keeps every list at most five long |
| EffectSlots.AddEffectKeepsLastFive | tools/tools.py:93-109 | for every category at once, `add_effect` leaves the last five of the old list followed by the unpacked effects routed to that category |
| EffectSlots.AddAllKeepsLastFive | tools/tools.py:98-109 | after inserting a sequence of effects, each list is the last five of its old contents followed by the effects routed to it, in insertion order |
| EffectSlots.FullListEvictsOldest | tools/tools.py:106-108 | adding to a full list drops its entry at index 0 and appends the new effect |
| EffectSlots.GroupKeepsLast | tools/tools.py:98-109 | after a group, each list is the last five of its old contents followed by the group members filed under it |
| EffectSlots.OneCategoryGroupKeepsLastFive | tools/tools.py:93-109 | from an empty list of its category (as `UserState()` starts), a group of effects of one category leaves the whole group when it has at most five members, otherwise its last five, oldest first |
| FloodWindow.Refresh | tools/tools.py:123-131 | every kept timestamp t has t + W > now; each such value is kept as many times as it occurs in the old list and every other value not at all (so the kept count is the number of in-window entries); the kept list is an order-preserving subsequence of the old one |
| FloodWindow.LogMsg | tools/tools.py:111-116 | the new list is the pruned old list (entries in the window, a subsequence of the old list) followed by `now` |
| FloodWindow.IsFlooding | tools/tools.py:118-121 | the timestamps left are the pruned list, and the verdict holds exactly when their number exceeds R*W |
| FloodWindow.RefreshAppend | tools/tools.py:129-130 | pruning a concatenation prunes each part |
| FloodWindow.RefreshLater | tools/tools.py:123-131 | pruning at an earlier then a later clock reading equals pruning at the later one |
| FloodWindow.RefreshIdempotent | tools/tools.py:123-131 | refreshing twice with the same `now` equals refreshing once |
| FloodWindow.RefreshKeepsRecent | tools/tools.py:129-130 | a list entirely inside the window is kept whole |
| FloodWindow.LogAllWindow | tools/tools.py:111-131 | after logging messages at readings up to `now`, the window at `now` is the window of the whole history |
| FloodWindow.FloodVerdictCountsHistory | tools/tools.py:111-121 | after a run of messages, the flood verdict at `now` counts exactly the messages of the history inside the window |
| FloodWindow.BurstFloodsIffOverThreshold | tools/tools.py:111-121 | a fresh user sending a burst inside one window is flooding exactly when the burst has more than R*W messages |
| UserStates.NewUserState | tools/tools.py:65-76 | a new record has five empty effect lists, no timestamps, both attack clocks at `now` and both flags cleared |
| UserStates.AddEffect | tools/tools.py:93-109 | only the effect lists change; from bounded lists, each becomes the last five of its old contents followed by the unpacked effects routed to its category, in order, so it stays bounded |
| UserStates.LogMsg | tools/tools.py:111-116 | only the timestamps change: they become the old list pruned at `now`, followed by `now` |
| UserStates.IsFlooding | tools/tools.py:118-131 | only the timestamps change, to the old list pruned at `now` (a subsequence, all inside the window), and the verdict compares their count with R*W |
| UserStates.RunKeepsSlotsBounded | tools/tools.py:93-131 | any run of effect additions, logged messages and flood checks keeps every effect list at most five long and leaves the flags and attack clocks alone |
| Phonems.TotalDurationAppend | tools/tools.py:265 | the summed duration of a concatenation is the sum of the parts' durations |
| Phonems.Head | tools/tools.py:258 | `ps[:n]` is the first min(n, len) phonemes |
| Phonems.Tail | tools/tools.py:260-266 | `ps[n:]` completes `ps[:n]` to the whole list and is shorter than a non-empty list when n > 0 |
| SpoilerBeep.GenBeep | tools/tools.py:235-239 | a beep is b (103 ms, no contour), a vowel, p (228 ms, no contour); the vowel lasts the requested duration with pitch 309 at 0%, 80% and 100%; it is "i:" exactly for German and "i" otherwise; the whole beep lasts duration + 331 |
| SpoilerBeep.ScanOutputIsInputOrBeep | tools/tools.py:255-270 | every phoneme the scan outputs, from any state, is an input phoneme or a beep phoneme |
| SpoilerBeep.ReplaceTagged | tools/tools.py:257-258 | it raises `KeyError` exactly when there is a phoneme to scan and the language has no tag signatures; an empty list gives an empty output |
| SpoilerBeep.Process | tools/tools.py:241-273 | with no occurrence the text is returned untouched; otherwise the result is the scanned phoneme list or its error |
| SpoilerBeep.ScanLoop | tools/tools.py:255-271 | the two-variable while loop of `process` computes exactly the recursive scan, including the `KeyError` |
| SpoilerBeep.ScanWithoutOpeningIsIdentity | tools/tools.py:258-268 | if no opening signature lines up anywhere, the output equals the input, closing signatures included |
| SpoilerBeep.ScanCopiesPrefix | tools/tools.py:258-268 | in the normal state everything before the first opening signature is copied to the output in order |
| SpoilerBeep.ScanBuffersUntilClosing | tools/tools.py:261-270 | inside a beep everything before the first closing signature, opening signatures included, goes to the buffer |
| SpoilerBeep.UnterminatedSpanIsDropped | tools/tools.py:257-271 | phonemes after an opening signature that is never closed are dropped from the output |
| SpoilerBeep.OpeningStartsBeep | tools/tools.py:258-260 | an opening signature met in the normal state is consumed and starts an empty buffer |
| SpoilerBeep.ClosingEmitsBeep | tools/tools.py:261-266 | a closing signature met inside a beep is consumed, emits the beep for the buffer, whose vowel lasts the buffer's total duration (nothing for an empty buffer) and returns to the normal state |
| SpoilerBeep.SpanBecomesBeep | tools/tools.py:258-266 | opening signature, span, closing signature become one beep whose vowel lasts the span's total duration (nothing for an empty span), then scanning resumes normally |
| SpoilerBeep.NoOccurrenceKeepsText | tools/tools.py:245-246 | with no `**…**` occurrence, `process` returns the text whatever the phonemes would have been |

## Left out

- `string_to_audio`, `phonemes_to_audio`, `string_to_phonemes` (tools/tools.py:162-191): shell commands and subprocess I/O. The phoneme list `string_to_phonemes` would return is an input of `SpoilerBeep.Process`.
- `to_f32_16k` and `to_wav_bytes` (tools/tools.py:193-213): floating-point rescaling, scipy's WAV reader/writer and an external resampler.
- The colour of `PokeParameters` (tools/tools.py:56-57): HSV to RGB in floating point. The name lookup `pokemons.pokemon[...]` (tools/tools.py:52): `tools/pokemons.py` is not part of this model, so the table size is a parameter.
- The warning timer of `__setattr__` and `_reset_warning` (tools/tools.py:78-91): an asyncio event-loop callback.
- The `datetime.now()` clock reads (tools/tools.py:72-73, 114, 127) and the configuration constants: they are the parameters `now`, `window` and `msgPerSec`.
- FloodWindow.IsFlooding: timestamps, window and rate are integers; the source's `datetime`/`timedelta` values and a possibly fractional rate are not modelled.
- The `re.findall` search and `str.replace` tagging inside `process` (tools/tools.py:245-250): the occurrence list is an input of `SpoilerBeep.Process` instead.
- `prepare_text_for_tts`, `links_translation` and `BannedWords` (tools/tools.py:276-296): they depend on Python regular expressions and `shlex.quote`.
- `PhonemList` parsing and printing: `tools/phonems.py` is not part of this model. `phonemes_str` is taken to be the concatenation of the symbols, and a phoneme without pitch breakpoints has an empty contour.
- AudioRenderer.GetAdditionalParams: the preset volumes are real numbers standing for their nearest doubles; no floating-point rounding is modelled (halving is exact on doubles in this range).
- Effects are modelled only by a name and the set of categories they are instances of; their behaviour belongs to `tools/effects.py`, which is not part of this model. A nested `EffectGroup` is an effect of no category and is ignored, as in the source.
