/** Key repeat for held keys. A key that has just been pressed moves at once; while it is
    held, a per-key frame counter grows by one per query and a move repeats once the
    counter reaches the initial delay and every RepeatDelay frames after that; releasing
    the key resets its counter. Whether the key was just pressed or is down is passed in. */
module Input {

  /** A keyboard key code. */
  type Key = int

  /** Frames a key must be held before it repeats. */
  const InitialDelay := 15
  /** Frames between repeats. */
  const RepeatDelay := 3

  /** A key's hold counter; a key never queried counts 0. */
  function HoldTime(counters: map<Key, int>, key: Key): int
  {
    if key in counters then counters[key] else 0
  }

  /** Whether a held key with this counter value moves. */
  predicate Repeats(count: int)
  {
    count >= InitialDelay && (count - InitialDelay) % RepeatDelay == 0
  }

  /** The outcome of one query: the key's new counter and whether it moves. */
  datatype Poll = Poll(count: int, move: bool)

  /** One query of a key whose counter is `count`. */
  function Query(count: int, justPressed: bool, pressed: bool): (r: Poll)
    ensures justPressed ==> r == Poll(0, true)
    ensures !justPressed && pressed ==> r.count == count + 1
    ensures !justPressed && !pressed ==> r == Poll(0, false)
    ensures r.move <==> justPressed || (pressed && Repeats(count + 1))
  {
    if justPressed then Poll(0, true)
    else if pressed then Poll(count + 1, Repeats(count + 1))
    else Poll(0, false)
  }

  /** The counter after k queries of a held key, starting from `count`. */
  function HeldCount(count: int, k: nat): int
  {
    if k == 0 then count else Query(HeldCount(count, k - 1), false, true).count
  }

  /** Each held query adds exactly one. */
  lemma {:induction false} HeldCountGrows(count: int, k: nat)
    ensures HeldCount(count, k) == count + k
  {
    if k > 0 {
      HeldCountGrows(count, k - 1);
    }
  }

  /** Whether the k-th held query after a press (which resets the counter) moves. */
  function HeldMove(k: nat): bool
    requires k >= 1
  {
    Query(HeldCount(0, k - 1), false, true).move
  }

  /** The k-th held query after a press moves exactly when k is the initial delay or a
      multiple of the repeat delay beyond it. */
  lemma HeldMoveSchedule(k: nat)
    requires k >= 1
    ensures HeldMove(k) <==> k >= InitialDelay && (k - InitialDelay) % RepeatDelay == 0
  {
    HeldCountGrows(0, k - 1);
  }

  /** Queries 1 to 14 do not move, the 15th does, then every third one. */
  lemma RepeatTiming()
    ensures forall k :: 1 <= k < InitialDelay ==> !HeldMove(k)
    ensures HeldMove(15) && !HeldMove(16) && !HeldMove(17) && HeldMove(18)
  {
    forall k | 1 <= k < InitialDelay ensures !HeldMove(k) {
      HeldMoveSchedule(k);
    }
    HeldMoveSchedule(15);
    HeldMoveSchedule(16);
    HeldMoveSchedule(17);
    HeldMoveSchedule(18);
  }

  /** Past the initial delay the moves repeat with period RepeatDelay. */
  lemma RepeatPeriodic(k: nat)
    requires k >= InitialDelay
    ensures HeldMove(k) <==> HeldMove(k + RepeatDelay)
  {
    HeldMoveSchedule(k);
    HeldMoveSchedule(k + RepeatDelay);
    var d := k - InitialDelay;
    assert (d + 3) % 3 == d % 3;
  }

  /** The key-repeat state: one hold counter per key. */
  class InputManager {
    var keyHoldTime: map<Key, int>

    /** NewInputManager: no counters. */
    constructor ()
      ensures keyHoldTime == map[]
    {
      keyHoldTime := map[];
    }

    /** ShouldMove: whether the key moves in this frame; only its own counter changes. */
    method ShouldMove(key: Key, justPressed: bool, pressed: bool) returns (move: bool)
      modifies this
      ensures var r := Query(HoldTime(old(keyHoldTime), key), justPressed, pressed);
        keyHoldTime == old(keyHoldTime)[key := r.count] && move == r.move
    {
      if justPressed {
        keyHoldTime := keyHoldTime[key := 0];
        return true;
      }
      if pressed {
        keyHoldTime := keyHoldTime[key := HoldTime(keyHoldTime, key) + 1];
        if keyHoldTime[key] >= InitialDelay {
          if (keyHoldTime[key] - InitialDelay) % RepeatDelay == 0 {
            return true;
          }
        }
      } else {
        keyHoldTime := keyHoldTime[key := 0];
      }
      return false;
    }
  }
}
