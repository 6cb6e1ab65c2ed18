/** Voice parameters and the name-table index derived from a user's cookie hash
    (`VoiceParameters.from_cookie_hash` and the `poke_id` part of
    `PokeParameters.from_cookie_hash`). Only the hash positions 0, 1, 2, 3 and 5
    are consumed; position 4 feeds the colour, which this model leaves out. */
module CookieParameters {
  import opened Bytes

  datatype VoiceParameters = VoiceParameters(speed: int, pitch: int, voiceId: int)

  const MinSpeed: int := 90
  const SpeedRange: int := 80
  const PitchRange: int := 100

  /** speed from byte 5, pitch from byte 0, voice id is byte 1 verbatim. */
  function VoiceFromCookieHash(hash: seq<Byte>): (v: VoiceParameters)
    requires |hash| >= 6
    ensures 90 <= v.speed <= 169
    ensures 0 <= v.pitch <= 99
    ensures v.voiceId == hash[1]
    ensures 0 <= v.voiceId <= 255
  {
    VoiceParameters(hash[5] % SpeedRange + MinSpeed, hash[0] % PitchRange, hash[1])
  }

  /** The derivation reads nothing but bytes 0, 1 and 5: two hashes that agree there
      give the same voice. */
  lemma VoiceReadsOnlyBytes015(h1: seq<Byte>, h2: seq<Byte>)
    requires |h1| >= 6 && |h2| >= 6
    requires h1[0] == h2[0] && h1[1] == h2[1] && h1[5] == h2[5]
    ensures VoiceFromCookieHash(h1) == VoiceFromCookieHash(h2)
  {
  }

  /** The speed and pitch bounds are tight: every triple inside them is produced by
      some six-byte hash. */
  lemma VoiceRangeIsReached(speed: int, pitch: int, voiceId: int)
    requires 90 <= speed <= 169 && 0 <= pitch <= 99 && 0 <= voiceId <= 255
    ensures exists h: seq<Byte> :: |h| == 6 && VoiceFromCookieHash(h) == VoiceParameters(speed, pitch, voiceId)
  {
    var h: seq<Byte> := [pitch, voiceId, 0, 0, 0, speed - 90];
    assert VoiceFromCookieHash(h) == VoiceParameters(speed, pitch, voiceId);
  }

  /** Python's `|` on non-negative integers, bit by bit from the least significant. */
  function BitOr(a: nat, b: nat): (r: nat)
    decreases a + b
  {
    if a == 0 then b
    else if b == 0 then a
    else 2 * BitOr(a / 2, b / 2) + (if a % 2 == 1 || b % 2 == 1 then 1 else 0)
  }

  /** 2 to the power `k`. */
  function Pow2(k: nat): (p: nat)
  {
    if k == 0 then 1 else 2 * Pow2(k - 1)
  }

  /** Python's `<<` on non-negative integers. */
  function ShiftLeft(a: nat, k: nat): (r: nat)
  {
    a * Pow2(k)
  }

  /** Or-ing a value below 2^k with a value shifted left by k is addition: the set bits
      do not overlap. */
  lemma {:induction false} BitOrDisjoint(lo: nat, hi: nat, k: nat)
    requires lo < Pow2(k)
    ensures BitOr(lo, ShiftLeft(hi, k)) == lo + ShiftLeft(hi, k)
    decreases k
  {
    if lo == 0 || hi == 0 {
    } else {
      assert k > 0;
      var h := ShiftLeft(hi, k);
      assert h == 2 * ShiftLeft(hi, k - 1);
      assert h / 2 == ShiftLeft(hi, k - 1) && h % 2 == 0;
      BitOrDisjoint(lo / 2, hi, k - 1);
    }
  }

  /** `cookie_hash[2] | (cookie_hash[3] << 8)` on bytes is the little-endian 16-bit value. */
  lemma OrShiftIsLittleEndian(lo: Byte, hi: Byte)
    ensures BitOr(lo, ShiftLeft(hi, 8)) == lo + 256 * hi
  {
    assert Pow2(8) == 256;
    BitOrDisjoint(lo, hi, 8);
  }

  /** 1-based index into a name table of `tableSize` entries. */
  function PokeIdFromCookieHash(hash: seq<Byte>, tableSize: int): (id: int)
    requires |hash| >= 6 && tableSize > 0
    ensures 1 <= id <= tableSize
    ensures id == (hash[2] + 256 * hash[3]) % tableSize + 1
  {
    OrShiftIsLittleEndian(hash[2], hash[3]);
    BitOr(hash[2], ShiftLeft(hash[3], 8)) % tableSize + 1
  }

  /** A value below the modulus is its own remainder. */
  lemma ModOfSmall(k: int, m: int)
    requires 0 <= k < m
    ensures k % m == k
  {
  }

  /** Every entry of a table of at most 65536 names is reachable from some hash. */
  lemma PokeIdIsOnto(tableSize: int, id: int)
    requires 0 < tableSize <= 65536 && 1 <= id <= tableSize
    ensures exists h: seq<Byte> :: |h| == 6 && PokeIdFromCookieHash(h, tableSize) == id
  {
    var k := id - 1;
    var lo: Byte := k % 256;
    var hi: Byte := k / 256;
    var h: seq<Byte> := [0, 0, lo, hi, 0, 0];
    assert h[2] as int + 256 * h[3] as int == k by {
      assert h[2] == lo && h[3] == hi;
    }
    ModOfSmall(k, tableSize);
    assert PokeIdFromCookieHash(h, tableSize) == id;
  }
}
