/**
 * The packed key states and the queries on them (src/data/Input.h). key_states holds, per
 * KEY_STATE row, eight 16-bit lanes; a query compares every lane of a row with the key
 * (_mm_cmpeq_epi16) and gathers the top bit of each byte of the comparison
 * (_mm_movemask_epi8), so a matching lane i sets bits 2i and 2i + 1 of the answer.
 */
module KeyStates {

  /** The rows of key_events and key_states: GLFW's action values, then the keys held down. */
  const KEY_RELEASE: nat := 0
  const KEY_PRESS: nat := 1
  const KEY_REPEAT: nat := 2
  const KEY_DOWN: nat := 3
  const NUM_KEY_STATES: nat := 4

  /** The lanes of one row. */
  const LANES: nat := 8
  const WORD: nat := 0x1_0000
  const DWORD: nat := 0x1_0000_0000

  /** GLFW_KEY_ESCAPE, the key input_task tests after packing. */
  const KEY_ESCAPE: nat := 256

  /** A row of key_states: eight uint16 lanes. */
  predicate IsRow(row: seq<int>)
  {
    |row| == LANES && forall i :: 0 <= i < |row| ==> 0 <= row[i] < WORD
  }

  /** key_states as a whole: four rows. */
  predicate IsStates(states: seq<seq<int>>)
  {
    |states| == NUM_KEY_STATES && forall r :: 0 <= r < |states| ==> IsRow(states[r])
  }

  // ------------------------------------------------------------ bits of an unsigned value

  /** Bit j of m. */
  predicate Bit(m: nat, j: nat)
  {
    if j == 0 then m % 2 == 1 else Bit(m / 2, j - 1)
  }

  /**
   * _mm_movemask_epi8: bit j of the result is the top bit of byte j; the top bits are given
   * here as booleans, byte 0 first.
   */
  function Movemask(tops: seq<bool>): (m: nat)
  {
    if |tops| == 0 then 0 else (if tops[0] then 1 else 0) + 2 * Movemask(tops[1..])
  }

  /** Each bit of the mask is the top bit of its byte, and there are no bits above them. */
  lemma {:induction false} MovemaskBits(tops: seq<bool>, j: nat)
    ensures Bit(Movemask(tops), j) <==> j < |tops| && tops[j]
  {
    if |tops| == 0 {
      ZeroHasNoBits(j);
    } else {
      MovemaskHalves(tops);
      if j > 0 {
        MovemaskBits(tops[1..], j - 1);
        if j < |tops| {
          assert tops[1..][j - 1] == tops[j];
        }
      }
    }
  }

  /** The low bit of the mask is the first byte's, and halving it drops that byte. */
  lemma MovemaskHalves(tops: seq<bool>)
    requires |tops| > 0
    ensures Movemask(tops) % 2 == (if tops[0] then 1 else 0)
    ensures Movemask(tops) / 2 == Movemask(tops[1..])
  {
    HalfOf(if tops[0] then 1 else 0, Movemask(tops[1..]));
  }

  lemma HalfOf(low: nat, x: nat)
    requires low < 2
    ensures (low + 2 * x) % 2 == low && (low + 2 * x) / 2 == x
  {
  }

  lemma {:induction false} ZeroHasNoBits(j: nat)
    ensures !Bit(0, j)
  {
    if j > 0 {
      ZeroHasNoBits(j - 1);
    }
  }

  /** The mask is zero exactly when no byte has its top bit set. */
  lemma {:induction false} MovemaskZero(tops: seq<bool>)
    ensures Movemask(tops) == 0 <==> forall j :: 0 <= j < |tops| ==> !tops[j]
  {
    if |tops| > 0 {
      MovemaskZero(tops[1..]);
      assert forall j :: 1 <= j < |tops| ==> tops[j] == tops[1..][j - 1];
    }
  }

  /** The mask fits in as many bits as there are bytes. */
  lemma {:induction false} MovemaskBound(tops: seq<bool>)
    ensures Movemask(tops) < Pow2(|tops|)
  {
    if |tops| > 0 {
      MovemaskBound(tops[1..]);
    }
  }

  function Pow2(n: nat): (p: nat)
    ensures p >= 1
  {
    if n == 0 then 1 else 2 * Pow2(n - 1)
  }

  lemma {:induction false} Pow2Add(a: nat, b: nat)
    ensures Pow2(a + b) == Pow2(a) * Pow2(b)
  {
    if a > 0 {
      Pow2Add(a - 1, b);
    }
  }

  /** Sixteen mask bits are a uint16. */
  lemma Pow2Word()
    ensures Pow2(16) == WORD
  {
    assert Pow2(2) == 4;
    Pow2Add(2, 2);
    Pow2Add(4, 4);
    Pow2Add(8, 8);
  }

  // ------------------------------------------------------------ the lane test

  /**
   * _mm_cmpeq_epi16(s, _mm_set1_epi16(key)) seen byte by byte: both bytes of lane i are
   * 0xFF when the lane equals the key cut to 16 bits, 0 otherwise.
   */
  function CompareBytes(row: seq<int>, key: nat): (tops: seq<bool>)
    requires IsRow(row)
    ensures |tops| == 2 * LANES
  {
    seq(2 * LANES, j requires 0 <= j < 2 * LANES => row[j / 2] == key % WORD)
  }

  /** The test key_pressed, key_released and key_down make on their row. */
  function LaneMask(row: seq<int>, key: nat): (m: nat)
    requires IsRow(row)
  {
    Movemask(CompareBytes(row, key))
  }

  /** The answer is non-zero exactly when some lane holds the key cut to 16 bits. */
  lemma LaneMaskNonZero(row: seq<int>, key: nat)
    requires IsRow(row)
    ensures LaneMask(row, key) != 0 <==> exists i :: 0 <= i < LANES && row[i] == key % WORD
  {
    var tops := CompareBytes(row, key);
    MovemaskZero(tops);
    if LaneMask(row, key) != 0 {
      var j :| 0 <= j < |tops| && tops[j];
      assert row[j / 2] == key % WORD;
    } else {
      forall i | 0 <= i < LANES
        ensures row[i] != key % WORD
      {
        assert !tops[2 * i];
      }
    }
  }

  /**
   * The answer is non-zero exactly when some lane holds the key cut to 16 bits, bits 2i and
   * 2i + 1 are set exactly when lane i does, and no bit above 15 is set.
   */
  lemma LaneMaskMeaning(row: seq<int>, key: nat)
    requires IsRow(row)
    ensures LaneMask(row, key) != 0 <==> exists i :: 0 <= i < LANES && row[i] == key % WORD
    ensures forall i :: 0 <= i < LANES ==>
              (Bit(LaneMask(row, key), 2 * i) <==> row[i] == key % WORD)
              && (Bit(LaneMask(row, key), 2 * i + 1) <==> row[i] == key % WORD)
    ensures LaneMask(row, key) < WORD
  {
    var tops := CompareBytes(row, key);
    LaneMaskNonZero(row, key);
    MovemaskBound(tops);
    Pow2Word();
    forall i | 0 <= i < LANES
      ensures (Bit(LaneMask(row, key), 2 * i) <==> row[i] == key % WORD)
              && (Bit(LaneMask(row, key), 2 * i + 1) <==> row[i] == key % WORD)
    {
      LaneBits(row, key, i);
    }
  }

  lemma LaneBits(row: seq<int>, key: nat, i: nat)
    requires IsRow(row) && i < LANES
    ensures Bit(LaneMask(row, key), 2 * i) <==> row[i] == key % WORD
    ensures Bit(LaneMask(row, key), 2 * i + 1) <==> row[i] == key % WORD
  {
    var tops := CompareBytes(row, key);
    MovemaskBits(tops, 2 * i);
    MovemaskBits(tops, 2 * i + 1);
    assert (2 * i + 1) / 2 == i;
    assert tops[2 * i] <==> row[i] == key % WORD;
    assert tops[2 * i + 1] <==> row[i] == key % WORD;
  }

  /** key_pressed (lines 21-28): the lane test on the press row. */
  function KeyPressed(states: seq<seq<int>>, key: nat): (m: nat)
    requires IsStates(states)
    ensures m != 0 <==> exists i :: 0 <= i < LANES && states[KEY_PRESS][i] == key % WORD
  {
    LaneMaskNonZero(states[KEY_PRESS], key);
    LaneMask(states[KEY_PRESS], key)
  }

  /** key_released (lines 30-37): the lane test on the release row. */
  function KeyReleased(states: seq<seq<int>>, key: nat): (m: nat)
    requires IsStates(states)
    ensures m != 0 <==> exists i :: 0 <= i < LANES && states[KEY_RELEASE][i] == key % WORD
  {
    LaneMaskNonZero(states[KEY_RELEASE], key);
    LaneMask(states[KEY_RELEASE], key)
  }

  /** key_down (lines 45-52): the lane test on the down row. */
  function KeyDown(states: seq<seq<int>>, key: nat): (m: nat)
    requires IsStates(states)
    ensures m != 0 <==> exists i :: 0 <= i < LANES && states[KEY_DOWN][i] == key % WORD
  {
    LaneMaskNonZero(states[KEY_DOWN], key);
    LaneMask(states[KEY_DOWN], key)
  }

  /** The three tests answer the same for keys that agree in their low 16 bits. */
  lemma KeyCutToWord(states: seq<seq<int>>, key: nat)
    requires IsStates(states)
    ensures KeyPressed(states, key + WORD) == KeyPressed(states, key)
    ensures KeyReleased(states, key + WORD) == KeyReleased(states, key)
    ensures KeyDown(states, key + WORD) == KeyDown(states, key)
  {
    assert (key + WORD) % WORD == key % WORD;
    assert forall r :: 0 <= r < NUM_KEY_STATES ==> CompareBytes(states[r], key + WORD) == CompareBytes(states[r], key);
  }

  /**
   * key_repeating (lines 39-43): lane 0 of the repeat row against the whole 32-bit key, as
   * 1 or 0.
   */
  function KeyRepeating(states: seq<seq<int>>, key: nat): (r: nat)
    requires IsStates(states)
    ensures r == 1 <==> states[KEY_REPEAT][0] == key
    ensures r <= 1
    ensures key >= WORD ==> r == 0
  {
    if states[KEY_REPEAT][0] == key then 1 else 0
  }
}
