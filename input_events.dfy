/**
 * What the input system does to its event buffers (src/systems/input/Input.cpp), as functions
 * of the buffers: key_events[4][8] and num_events[4] filled by the GLFW key callback, cleared
 * before each poll, folded into the down row by input_task, and packed into key_states.
 */
module InputEvents {
  import opened KeyStates

  /** max_num_events (line 22): eight slots per row, one for the repeat row. */
  function MaxEvents(action: nat): (m: nat)
    requires action < NUM_KEY_STATES
    ensures m == 1 || m == 8
  {
    [8, 8, 1, 8][action]
  }

  /** key_events (uint32 slots) and num_events, row by row. */
  datatype Events = Events(rows: seq<seq<int>>, counts: seq<nat>)

  /** Four rows of eight uint32 slots, and every count below its row's maximum. */
  predicate Valid(e: Events)
  {
    && |e.rows| == NUM_KEY_STATES && |e.counts| == NUM_KEY_STATES
    && (forall r :: 0 <= r < NUM_KEY_STATES ==> |e.rows[r]| == LANES && e.counts[r] < MaxEvents(r))
    && (forall r, j :: 0 <= r < NUM_KEY_STATES && 0 <= j < LANES ==> 0 <= e.rows[r][j] < DWORD)
  }

  /**
   * (num + 1) & (max - 1), the wrap every count takes (lines 77, 132): for the power-of-two
   * maxima it is the increment modulo the row size.
   */
  function NextCount(n: nat, max: nat): (m: nat)
    requires (max == 1 || max == 8) && n < max
    ensures m < max && m == (n + 1) % max
  {
    var b := (n + 1) as bv32 & (max - 1) as bv32;
    assert max == 8 ==> b == (n + 1) as bv32 % 8;
    b as int
  }

  // ------------------------------------------------------------ key_callback

  /**
   * key_callback (lines 74-78): the key, as the uint32 the slot holds, goes into the action's
   * row at its count, and the count moves on.
   */
  function Callback(e: Events, action: nat, key: int): (r: Events)
    requires Valid(e) && action < KEY_DOWN
  {
    var n := e.counts[action];
    Events(e.rows[action := e.rows[action][n := key % DWORD]],
           e.counts[action := NextCount(n, MaxEvents(action))])
  }

  /**
   * A callback keeps the buffers valid, stores the key at the old count, moves that count on
   * modulo the row size, and changes no other slot or count.
   */
  lemma CallbackRecords(e: Events, action: nat, key: int)
    requires Valid(e) && action < KEY_DOWN
    ensures var r := Callback(e, action, key);
            && Valid(r)
            && r.rows[action][e.counts[action]] == key % DWORD
            && r.counts[action] == (e.counts[action] + 1) % MaxEvents(action)
            && (forall j :: 0 <= j < LANES && j != e.counts[action] ==> r.rows[action][j] == e.rows[action][j])
            && (forall a :: 0 <= a < NUM_KEY_STATES && a != action ==> r.rows[a] == e.rows[a] && r.counts[a] == e.counts[a])
  {
  }

  /** The repeat row's count stays 0, so its slot 0 holds the latest repeated key. */
  lemma RepeatKeepsLatest(e: Events, key: int)
    requires Valid(e)
    ensures e.counts[KEY_REPEAT] == 0
    ensures var r := Callback(e, KEY_REPEAT, key);
            r.counts[KEY_REPEAT] == 0 && r.rows[KEY_REPEAT][0] == key % DWORD
  {
    CallbackRecords(e, KEY_REPEAT, key);
  }

  // ------------------------------------------------------------ the gather in input_loop

  /** The clearing before glfwPollEvents (lines 47-56). */
  function Cleared(e: Events): (r: Events)
    requires Valid(e)
  {
    Events(seq(NUM_KEY_STATES, a requires 0 <= a < NUM_KEY_STATES => if a < KEY_DOWN then seq(LANES, _ => 0) else e.rows[a]),
           [0, 0, 0, e.counts[KEY_DOWN]])
  }

  /**
   * Clearing empties the release, press and repeat rows and their counts and leaves the
   * down row and its count as they were.
   */
  lemma ClearedMeaning(e: Events)
    requires Valid(e)
    ensures var r := Cleared(e);
            && Valid(r)
            && (forall a, j :: 0 <= a < KEY_DOWN && 0 <= j < LANES ==> r.rows[a][j] == 0)
            && (forall a :: 0 <= a < KEY_DOWN ==> r.counts[a] == 0)
            && r.rows[KEY_DOWN] == e.rows[KEY_DOWN] && r.counts[KEY_DOWN] == e.counts[KEY_DOWN]
  {
  }

  // ------------------------------------------------------------ add pressed keys as down

  /**
   * The loop of lines 129-133 after it has taken `keys`: each key goes into the down row at
   * the down count, which wraps modulo 8.
   */
  function AppendKeys(down: seq<int>, n: nat, keys: seq<int>): (r: (seq<int>, nat))
    requires |down| == LANES && n < LANES
    ensures |r.0| == LANES && r.1 < LANES
    decreases |keys|
  {
    if |keys| == 0 then (down, n)
    else
      var p := AppendKeys(down, n, keys[..|keys| - 1]);
      (p.0[p.1 := keys[|keys| - 1]], NextCount(p.1, 8))
  }

  /** Every slot of the down row afterwards is as it was or holds one of the keys. */
  lemma {:induction false} AppendKeysValues(down: seq<int>, n: nat, keys: seq<int>)
    requires |down| == LANES && n < LANES
    ensures forall j :: 0 <= j < LANES ==> AppendKeys(down, n, keys).0[j] == down[j] || AppendKeys(down, n, keys).0[j] in keys
    decreases |keys|
  {
    if |keys| > 0 {
      var front := keys[..|keys| - 1];
      AppendKeysValues(down, n, front);
      forall x | x in front ensures x in keys {
        var i :| 0 <= i < |front| && front[i] == x;
        assert keys[i] == x;
      }
    }
  }

  /**
   * The down row as a ring of eight: the count ends at n + |keys| modulo 8, and each of the
   * last eight keys sits at its position n + i modulo 8.
   */
  lemma {:induction false} AppendRing(down: seq<int>, n: nat, keys: seq<int>)
    requires |down| == LANES && n < LANES
    ensures AppendKeys(down, n, keys).1 == (n + |keys|) % LANES
    ensures forall i :: 0 <= i < |keys| && |keys| - i <= LANES ==> AppendKeys(down, n, keys).0[(n + i) % LANES] == keys[i]
    decreases |keys|
  {
    if |keys| > 0 {
      var front, key := keys[..|keys| - 1], keys[|keys| - 1];
      var p := AppendKeys(down, n, front);
      assert AppendKeys(down, n, keys) == (p.0[p.1 := key], NextCount(p.1, 8));
      AppendRing(down, n, front);
      ModStep(n + |front|);
      assert NextCount(p.1, 8) == (n + |keys|) % LANES;
      RingStep(p.0, n, front, key, p.1);
      assert keys == front + [key];
    }
  }

  /** Writing the newest key at its ring position keeps the older keys that are still in the ring. */
  lemma RingStep(row: seq<int>, n: nat, front: seq<int>, key: int, pos: nat)
    requires |row| == LANES && pos == (n + |front|) % LANES
    requires forall i :: 0 <= i < |front| && |front| - i <= LANES ==> row[(n + i) % LANES] == front[i]
    ensures forall i :: 0 <= i < |front| + 1 && |front| + 1 - i <= LANES
              ==> row[pos := key][(n + i) % LANES] == (front + [key])[i]
  {
    forall i | 0 <= i < |front| && |front| + 1 - i <= LANES
      ensures row[pos := key][(n + i) % LANES] == (front + [key])[i]
    {
      ModDistinct(n + i, n + |front|);
    }
  }

  /** Taking one more key: it goes in at the count reached so far, and the count moves on. */
  lemma AppendKeysNext(down: seq<int>, n: nat, keys: seq<int>, i: nat)
    requires |down| == LANES && n < LANES && i < |keys|
    ensures AppendKeys(down, n, keys[..i + 1])
            == (AppendKeys(down, n, keys[..i]).0[AppendKeys(down, n, keys[..i]).1 := keys[i]],
                NextCount(AppendKeys(down, n, keys[..i]).1, 8))
  {
    assert keys[..i + 1][..i] == keys[..i];
  }

  lemma ModStep(x: nat)
    ensures (x % LANES + 1) % LANES == (x + 1) % LANES
  {
  }

  lemma ModDistinct(a: nat, b: nat)
    requires a < b < a + LANES
    ensures a % LANES != b % LANES
  {
  }

  /** Without a wrap the keys land after the first n slots, in order, and the rest stays. */
  lemma {:induction false} AppendNoWrap(down: seq<int>, n: nat, keys: seq<int>)
    requires |down| == LANES && n < LANES && n + |keys| < LANES
    ensures AppendKeys(down, n, keys) == (down[..n] + keys + down[n + |keys|..], n + |keys|)
    decreases |keys|
  {
    if |keys| > 0 {
      var front, key := keys[..|keys| - 1], keys[|keys| - 1];
      AppendNoWrap(down, n, front);
      var p := AppendKeys(down, n, front);
      assert AppendKeys(down, n, keys) == (p.0[p.1 := key], NextCount(p.1, 8));
      NoWrapStep(down, n, front, key);
      assert keys == front + [key];
    } else {
      assert down[..n] + keys + down[n..] == down;
    }
  }

  /** The next key goes in just after the keys already appended. */
  lemma NoWrapStep(down: seq<int>, n: nat, front: seq<int>, key: int)
    requires |down| == LANES && n + |front| < LANES
    ensures (down[..n] + front + down[n + |front|..])[n + |front| := key]
            == down[..n] + (front + [key]) + down[n + |front| + 1..]
  {
  }

  /** input_task's first step (lines 128-133): the pressed keys of the frame join the down row. */
  function AddPressed(e: Events): (r: Events)
    requires Valid(e)
    ensures Valid(r)
    ensures r.rows == e.rows[KEY_DOWN := r.rows[KEY_DOWN]] && r.counts == e.counts[KEY_DOWN := r.counts[KEY_DOWN]]
  {
    var p := AppendKeys(e.rows[KEY_DOWN], e.counts[KEY_DOWN], e.rows[KEY_PRESS][..e.counts[KEY_PRESS]]);
    AppendKeysValues(e.rows[KEY_DOWN], e.counts[KEY_DOWN], e.rows[KEY_PRESS][..e.counts[KEY_PRESS]]);
    Events(e.rows[KEY_DOWN := p.0], e.counts[KEY_DOWN := p.1])
  }

  /** Without a wrap the down keys gain exactly the pressed keys of the frame. */
  lemma AddPressedNoWrap(e: Events)
    requires Valid(e) && e.counts[KEY_DOWN] + e.counts[KEY_PRESS] < LANES
    ensures var r := AddPressed(e);
            && r.counts[KEY_DOWN] == e.counts[KEY_DOWN] + e.counts[KEY_PRESS]
            && r.rows[KEY_DOWN][..r.counts[KEY_DOWN]] == e.rows[KEY_DOWN][..e.counts[KEY_DOWN]] + e.rows[KEY_PRESS][..e.counts[KEY_PRESS]]
  {
    var down, n, keys := e.rows[KEY_DOWN], e.counts[KEY_DOWN], e.rows[KEY_PRESS][..e.counts[KEY_PRESS]];
    AppendNoWrap(down, n, keys);
    assert (down[..n] + keys + down[n + |keys|..])[..n + |keys|] == down[..n] + keys;
  }

  // ------------------------------------------------------------ remove released keys as down

  /** The search of the inner loop (lines 139-141): the first j < n from `from` holding key, or n. */
  function FirstMatch(down: seq<int>, n: nat, key: int, from: nat): (j: nat)
    requires n <= |down| && from <= n
    ensures from <= j <= n
    ensures j < n ==> down[j] == key
    ensures forall i :: from <= i < j ==> down[i] != key
    decreases n - from
  {
    if from == n then n else if down[from] == key then from else FirstMatch(down, n, key, from + 1)
  }

  /**
   * One released key (lines 139-148): the first equal down slot takes the last down key, the
   * last slot is zeroed and the count drops; without an equal slot nothing changes.
   */
  function RemoveKey(down: seq<int>, n: nat, key: int): (r: (seq<int>, nat))
    requires n <= |down|
    ensures |r.0| == |down| && r.1 <= n
  {
    var j := FirstMatch(down, n, key, 0);
    if j == n then (down, n) else (down[j := down[n - 1]][n - 1 := 0], n - 1)
  }

  /**
   * Removing a released key takes exactly one copy of it out of the down keys when there is
   * one and changes nothing otherwise; the freed slot is zeroed and the slots past the count
   * stay as they were.
   */
  lemma RemoveKeyMeaning(down: seq<int>, n: nat, key: int)
    requires n <= |down|
    ensures key !in down[..n] ==> RemoveKey(down, n, key) == (down, n)
    ensures key in down[..n] ==> RemoveKey(down, n, key).1 == n - 1 && RemoveKey(down, n, key).0[n - 1] == 0
                                 && RemoveKey(down, n, key).0[n..] == down[n..]
    ensures multiset(RemoveKey(down, n, key).0[..RemoveKey(down, n, key).1]) == multiset(down[..n]) - multiset{key}
  {
    var j := FirstMatch(down, n, key, 0);
    if j == n {
      RemoveAbsent(down, n, key);
    } else {
      assert down[..n][j] == key;
    }
    RemoveKeyCount(down, n, key);
  }

  /** One removal takes one copy of the key out of the down keys' multiset, if there is one. */
  lemma RemoveKeyCount(down: seq<int>, n: nat, key: int)
    requires n <= |down|
    ensures multiset(RemoveKey(down, n, key).0[..RemoveKey(down, n, key).1]) == multiset(down[..n]) - multiset{key}
  {
    var j := FirstMatch(down, n, key, 0);
    if j == n {
      RemoveAbsent(down, n, key);
    } else {
      RemovePresent(down, n, key, j);
    }
  }

  /** No match: the key is not among the down keys, and nothing changes. */
  lemma RemoveAbsent(down: seq<int>, n: nat, key: int)
    requires n <= |down| && FirstMatch(down, n, key, 0) == n
    ensures key !in down[..n]
    ensures multiset(down[..n]) - multiset{key} == multiset(down[..n])
  {
    assert key !in down[..n] by {
      forall i | 0 <= i < n ensures down[..n][i] != key { }
    }
    assert multiset(down[..n])[key] == 0;
  }

  /** A match at j: the last down key moves into slot j, and one copy of the key is gone. */
  lemma RemovePresent(down: seq<int>, n: nat, key: int, j: nat)
    requires j < n <= |down| && down[j] == key
    ensures multiset(down[j := down[n - 1]][n - 1 := 0][..n - 1]) == multiset(down[..n]) - multiset{key}
  {
    var r := down[j := down[n - 1]][n - 1 := 0];
    assert down[..n] == down[..n - 1] + [down[n - 1]];
    if j == n - 1 {
      assert r[..n - 1] == down[..n - 1];
    } else {
      assert r[..n - 1] == down[..n - 1][j := down[n - 1]];
      assert down[..n - 1][j] == key;
    }
  }

  /** The loop of lines 137-149 after it has taken `keys`. */
  function RemoveKeys(down: seq<int>, n: nat, keys: seq<int>): (r: (seq<int>, nat))
    requires n <= |down|
    ensures |r.0| == |down| && r.1 <= n
    decreases |keys|
  {
    if |keys| == 0 then (down, n)
    else
      var p := RemoveKeys(down, n, keys[..|keys| - 1]);
      RemoveKey(p.0, p.1, keys[|keys| - 1])
  }

  /** Removing keys only moves down keys around and zeroes slots: no new value appears. */
  lemma {:induction false} RemoveKeysValues(down: seq<int>, n: nat, keys: seq<int>)
    requires n <= |down|
    ensures forall j :: 0 <= j < |down| ==> RemoveKeys(down, n, keys).0[j] == 0 || RemoveKeys(down, n, keys).0[j] in down
    decreases |keys|
  {
    if |keys| > 0 {
      var p := RemoveKeys(down, n, keys[..|keys| - 1]);
      RemoveKeysValues(down, n, keys[..|keys| - 1]);
      var j := FirstMatch(p.0, p.1, keys[|keys| - 1], 0);
      assert RemoveKeys(down, n, keys) == RemoveKey(p.0, p.1, keys[|keys| - 1]);
      if j < p.1 {
        assert p.0[p.1 - 1] in p.0;
      }
    }
  }

  /** Taking one more released key removes it from what the earlier ones left. */
  lemma RemoveKeysNext(down: seq<int>, n: nat, keys: seq<int>, i: nat)
    requires n <= |down| && i < |keys|
    ensures RemoveKeys(down, n, keys[..i + 1])
            == RemoveKey(RemoveKeys(down, n, keys[..i]).0, RemoveKeys(down, n, keys[..i]).1, keys[i])
  {
    assert keys[..i + 1][..i] == keys[..i];
  }

  /**
   * Each released key takes one copy of itself out of the down keys while there is one, so
   * the down keys end as the multiset difference of the down keys and the released ones.
   */
  lemma {:induction false} RemoveKeysMultiset(down: seq<int>, n: nat, keys: seq<int>)
    requires n <= |down|
    ensures var r := RemoveKeys(down, n, keys);
            multiset(r.0[..r.1]) == multiset(down[..n]) - multiset(keys)
    decreases |keys|
  {
    if |keys| > 0 {
      var front, key := keys[..|keys| - 1], keys[|keys| - 1];
      RemoveKeysMultiset(down, n, front);
      var p := RemoveKeys(down, n, front);
      assert RemoveKeys(down, n, keys) == RemoveKey(p.0, p.1, key);
      RemoveKeyCount(p.0, p.1, key);
      assert keys == front + [key];
      assert multiset(keys) == multiset(front) + multiset{key};
    }
  }

  /** input_task's second step (lines 136-149): the released keys of the frame leave the down row. */
  function RemoveReleased(e: Events): (r: Events)
    requires Valid(e)
    ensures Valid(r)
    ensures r.rows == e.rows[KEY_DOWN := r.rows[KEY_DOWN]] && r.counts == e.counts[KEY_DOWN := r.counts[KEY_DOWN]]
  {
    var p := RemoveKeys(e.rows[KEY_DOWN], e.counts[KEY_DOWN], e.rows[KEY_RELEASE][..e.counts[KEY_RELEASE]]);
    RemoveKeysValues(e.rows[KEY_DOWN], e.counts[KEY_DOWN], e.rows[KEY_RELEASE][..e.counts[KEY_RELEASE]]);
    Events(e.rows[KEY_DOWN := p.0], e.counts[KEY_DOWN := p.1])
  }

  /**
   * Over one frame without a wrap, the down keys are those down before plus those pressed,
   * less those released, one copy per release.
   */
  lemma DownAfterFrame(e: Events)
    requires Valid(e) && e.counts[KEY_DOWN] + e.counts[KEY_PRESS] < LANES
    ensures var r := RemoveReleased(AddPressed(e));
            multiset(r.rows[KEY_DOWN][..r.counts[KEY_DOWN]])
            == multiset(e.rows[KEY_DOWN][..e.counts[KEY_DOWN]]) + multiset(e.rows[KEY_PRESS][..e.counts[KEY_PRESS]])
               - multiset(e.rows[KEY_RELEASE][..e.counts[KEY_RELEASE]])
  {
    var a := AddPressed(e);
    AddPressedNoWrap(e);
    RemoveKeysMultiset(a.rows[KEY_DOWN], a.counts[KEY_DOWN], a.rows[KEY_RELEASE][..a.counts[KEY_RELEASE]]);
  }

  // ------------------------------------------------------------ packing to 16-bit lanes

  /** Where packing puts the low half of each slot: lane i holds slot LANE_ORDER[i]. */
  const LANE_ORDER: seq<nat> := [0, 4, 2, 6, 1, 5, 3, 7]

  /** The eight 16-bit words of four uint32 slots, low half first (a 128-bit load). */
  function Words(d: seq<int>): (w: seq<int>)
    requires |d| == 4
    ensures |w| == 8
  {
    seq(8, i requires 0 <= i < 8 => if i % 2 == 0 then d[i / 2] % WORD else d[i / 2] / WORD % WORD)
  }

  /** _mm_unpacklo_epi16: the low four words of a and b, interleaved. */
  function UnpackLo16(a: seq<int>, b: seq<int>): (w: seq<int>)
    requires |a| == 8 && |b| == 8
    ensures |w| == 8
  {
    seq(8, i requires 0 <= i < 8 => if i % 2 == 0 then a[i / 2] else b[i / 2])
  }

  /** _mm_unpackhi_epi16: the high four words of a and b, interleaved. */
  function UnpackHi16(a: seq<int>, b: seq<int>): (w: seq<int>)
    requires |a| == 8 && |b| == 8
    ensures |w| == 8
  {
    seq(8, i requires 0 <= i < 8 => if i % 2 == 0 then a[4 + i / 2] else b[4 + i / 2])
  }

  /** _MM_SHUFFLE(z, y, x, w) */
  function MmShuffle(z: nat, y: nat, x: nat, w: nat): nat
  {
    z * 64 + y * 16 + x * 4 + w
  }

  /** _mm_shuffle_epi32: dword d of the result is dword (imm >> 2d) & 3 of x. */
  function Shuffle32(x: seq<int>, imm: nat): (w: seq<int>)
    requires |x| == 8
    ensures |w| == 8
  {
    seq(8, i requires 0 <= i < 8 => x[2 * (imm / [1, 4, 16, 64][i / 2] % 4) + i % 2])
  }

  /** _mm_blend_epi16: word i from b where bit i of imm is set, from a otherwise. */
  function Blend16(a: seq<int>, b: seq<int>, imm: nat): (w: seq<int>)
    requires |a| == 8 && |b| == 8
    ensures |w| == 8
  {
    seq(8, i requires 0 <= i < 8 => if imm / [1, 2, 4, 8, 16, 32, 64, 128][i] % 2 == 1 then b[i] else a[i])
  }

  /** The packing of one row (lines 154-160). */
  function PackRow(row: seq<int>): (lanes: seq<int>)
    requires |row| == LANES
    ensures |lanes| == LANES
  {
    var e0 := Words(row[..4]);
    var e1 := Words(row[4..]);
    var lo := UnpackLo16(e0, e1);
    var hi := UnpackHi16(e0, e1);
    Blend16(Shuffle32(hi, MmShuffle(2, 1, 0, 3)), lo, 0x33)
  }

  /**
   * Packing keeps the low 16 bits of every slot: lane i holds slot LANE_ORDER[i], and since
   * that order is its own inverse, slot j lands in lane LANE_ORDER[j]; slot 0 stays in lane 0.
   */
  lemma PackOrder(row: seq<int>)
    requires |row| == LANES
    ensures IsRow(PackRow(row))
    ensures forall i :: 0 <= i < LANES ==> PackRow(row)[i] == row[LANE_ORDER[i]] % WORD
    ensures forall j :: 0 <= j < LANES ==> PackRow(row)[LANE_ORDER[j]] == row[j] % WORD
  {
    PackRowLanes(row);
    LaneOrderForward(row, PackRow(row));
    LaneOrderBackward(row, PackRow(row));
  }

  /** The lanes written out: each is the low half of its slot, so the row is a packed row. */
  lemma LaneOrderForward(row: seq<int>, lanes: seq<int>)
    requires |row| == LANES
    requires lanes == [row[0] % WORD, row[4] % WORD, row[2] % WORD, row[6] % WORD,
                       row[1] % WORD, row[5] % WORD, row[3] % WORD, row[7] % WORD]
    ensures IsRow(lanes)
    ensures forall i :: 0 <= i < LANES ==> lanes[i] == row[LANE_ORDER[i]] % WORD
  {
  }

  /** The lane order is its own inverse. */
  lemma LaneOrderBackward(row: seq<int>, lanes: seq<int>)
    requires |row| == LANES
    requires lanes == [row[0] % WORD, row[4] % WORD, row[2] % WORD, row[6] % WORD,
                       row[1] % WORD, row[5] % WORD, row[3] % WORD, row[7] % WORD]
    ensures forall j :: 0 <= j < LANES ==> lanes[LANE_ORDER[j]] == row[j] % WORD
  {
  }

  /** The packed row written out lane by lane. */
  lemma PackRowLanes(row: seq<int>)
    requires |row| == LANES
    ensures PackRow(row) == [row[0] % WORD, row[4] % WORD, row[2] % WORD, row[6] % WORD,
                             row[1] % WORD, row[5] % WORD, row[3] % WORD, row[7] % WORD]
  {
    var e0 := Words(row[..4]);
    var e1 := Words(row[4..]);
    WordsLow(row[..4]);
    WordsLow(row[4..]);
    var lo := UnpackLo16(e0, e1);
    var hi := UnpackHi16(e0, e1);
    UnpackLanes(e0, e1);
    ShuffleRotates(hi);
    assert MmShuffle(2, 1, 0, 3) == 0x93;
    var sh := Shuffle32(hi, 0x93);
    BlendPairs(sh, lo);
    assert PackRow(row) == Blend16(sh, lo, 0x33);
  }

  /** The low halves of four slots are the even words of their 128-bit load. */
  lemma WordsLow(d: seq<int>)
    requires |d| == 4
    ensures Words(d)[0] == d[0] % WORD && Words(d)[2] == d[1] % WORD
    ensures Words(d)[4] == d[2] % WORD && Words(d)[6] == d[3] % WORD
  {
  }

  lemma UnpackLanes(a: seq<int>, b: seq<int>)
    requires |a| == 8 && |b| == 8
    ensures UnpackLo16(a, b) == [a[0], b[0], a[1], b[1], a[2], b[2], a[3], b[3]]
    ensures UnpackHi16(a, b) == [a[4], b[4], a[5], b[5], a[6], b[6], a[7], b[7]]
  {
  }

  /** _MM_SHUFFLE(2, 1, 0, 3) moves the top dword to the bottom and the others up by one. */
  lemma ShuffleRotates(x: seq<int>)
    requires |x| == 8
    ensures Shuffle32(x, 0x93) == [x[6], x[7], x[0], x[1], x[2], x[3], x[4], x[5]]
  {
    assert 0x93 / 1 % 4 == 3 && 0x93 / 4 % 4 == 0 && 0x93 / 16 % 4 == 1 && 0x93 / 64 % 4 == 2;
  }

  /** The blend mask 0b00110011 takes words 0, 1, 4 and 5 from the second operand. */
  lemma BlendPairs(a: seq<int>, b: seq<int>)
    requires |a| == 8 && |b| == 8
    ensures Blend16(a, b, 0x33) == [b[0], b[1], a[2], a[3], b[4], b[5], a[6], a[7]]
  {
    assert 0x33 / 1 % 2 == 1 && 0x33 / 2 % 2 == 1 && 0x33 / 4 % 2 == 0 && 0x33 / 8 % 2 == 0;
    assert 0x33 / 16 % 2 == 1 && 0x33 / 32 % 2 == 1 && 0x33 / 64 % 2 == 0 && 0x33 / 128 % 2 == 0;
  }

  /** The whole packing loop (lines 152-161): every row packed. */
  function Pack(e: Events): (states: seq<seq<int>>)
    requires Valid(e)
    ensures IsStates(states)
  {
    forall r | 0 <= r < NUM_KEY_STATES ensures IsRow(PackRow(e.rows[r])) {
      PackOrder(e.rows[r]);
    }
    seq(NUM_KEY_STATES, r requires 0 <= r < NUM_KEY_STATES => PackRow(e.rows[r]))
  }

  /** The lane test on a packed row asks whether some slot, cut to 16 bits, is the key cut to 16 bits. */
  lemma PackedRowQuery(row: seq<int>, key: nat)
    requires |row| == LANES
    ensures IsRow(PackRow(row))
    ensures LaneMask(PackRow(row), key) != 0 <==> exists j :: 0 <= j < LANES && row[j] % WORD == key % WORD
  {
    PackOrder(row);
    PermutedQuery(PackRow(row), row, key);
  }

  lemma PermutedQuery(lanes: seq<int>, row: seq<int>, key: nat)
    requires IsRow(lanes) && |row| == LANES
    requires forall i :: 0 <= i < LANES ==> lanes[i] == row[LANE_ORDER[i]] % WORD
    requires forall j :: 0 <= j < LANES ==> lanes[LANE_ORDER[j]] == row[j] % WORD
    ensures LaneMask(lanes, key) != 0 <==> exists j :: 0 <= j < LANES && row[j] % WORD == key % WORD
  {
    LaneMaskNonZero(lanes, key);
    PermutedHit(lanes, row, key);
    PermutedMiss(lanes, row, key);
  }

  lemma PermutedHit(lanes: seq<int>, row: seq<int>, key: nat)
    requires IsRow(lanes) && |row| == LANES
    requires forall i :: 0 <= i < LANES ==> lanes[i] == row[LANE_ORDER[i]] % WORD
    ensures (exists i :: 0 <= i < LANES && lanes[i] == key % WORD) ==> exists j :: 0 <= j < LANES && row[j] % WORD == key % WORD
  {
    if exists i :: 0 <= i < LANES && lanes[i] == key % WORD {
      var i :| 0 <= i < LANES && lanes[i] == key % WORD;
      assert row[LANE_ORDER[i]] % WORD == key % WORD;
    }
  }

  lemma PermutedMiss(lanes: seq<int>, row: seq<int>, key: nat)
    requires IsRow(lanes) && |row| == LANES
    requires forall j :: 0 <= j < LANES ==> lanes[LANE_ORDER[j]] == row[j] % WORD
    ensures (exists j :: 0 <= j < LANES && row[j] % WORD == key % WORD) ==> exists i :: 0 <= i < LANES && lanes[i] == key % WORD
  {
    if exists j :: 0 <= j < LANES && row[j] % WORD == key % WORD {
      var j :| 0 <= j < LANES && row[j] % WORD == key % WORD;
      assert lanes[LANE_ORDER[j]] == key % WORD;
    }
  }

  /**
   * After packing, key_pressed, key_released and key_down answer whether some slot of their
   * row, cut to 16 bits, is the key cut to 16 bits; key_repeating sees the low half of the
   * repeat row's slot 0.
   */
  lemma PackedQueries(e: Events, key: nat)
    requires Valid(e)
    ensures KeyPressed(Pack(e), key) != 0 <==> exists j :: 0 <= j < LANES && e.rows[KEY_PRESS][j] % WORD == key % WORD
    ensures KeyReleased(Pack(e), key) != 0 <==> exists j :: 0 <= j < LANES && e.rows[KEY_RELEASE][j] % WORD == key % WORD
    ensures KeyDown(Pack(e), key) != 0 <==> exists j :: 0 <= j < LANES && e.rows[KEY_DOWN][j] % WORD == key % WORD
    ensures KeyRepeating(Pack(e), key) == 1 <==> e.rows[KEY_REPEAT][0] % WORD == key
  {
    var states := Pack(e);
    assert states[KEY_PRESS] == PackRow(e.rows[KEY_PRESS]);
    assert states[KEY_RELEASE] == PackRow(e.rows[KEY_RELEASE]);
    assert states[KEY_DOWN] == PackRow(e.rows[KEY_DOWN]);
    assert states[KEY_REPEAT] == PackRow(e.rows[KEY_REPEAT]);
    PackedRowQuery(e.rows[KEY_PRESS], key);
    PackedRowQuery(e.rows[KEY_RELEASE], key);
    PackedRowQuery(e.rows[KEY_DOWN], key);
    PackOrder(e.rows[KEY_REPEAT]);
  }
}
