/** Slot arithmetic of the hierarchical timing wheel, on an unbounded clock.

    The program keeps a 32-bit clock and 32-bit expiry times. Here both are natural numbers, the
    value the program holds being the remainder modulo 2^32. A timer due at `due` is placed by its
    distance from the clock; a list is moved down by the digits of the clock. What follows relates
    the two, over every stretch of time. */
module WheelClock {
  import opened Arith

  const NEAR := 256
  const LEVEL := 64
  const WRAP := 0x1_0000_0000

  /** The near wheel has one slot a tick, level `i` one slot for `Span(i)` ticks. */
  datatype Slot = Near(k: nat) | Level(i: nat, k: nat)

  predicate IsSlot(s: Slot) {
    match s
    case Near(k) => k < NEAR
    case Level(i, k) => i < 4 && k < LEVEL
  }

  datatype Drain = Nothing | Drain(slot: Slot)

  /** Ticks covered by one slot of level `i`: 2^(8 + 6 i). */
  function Span(i: nat): (s: nat)
    requires i < 4
    ensures s > 0
  {
    if i == 0 then 0x100 else if i == 1 then 0x4000 else if i == 2 then 0x10_0000 else 0x400_0000
  }

  /** The slot of level `i` that time `n` falls into. */
  function Digit(n: nat, i: nat): (k: nat)
    requires i < 4
    ensures k < LEVEL
  {
    n / Span(i) % LEVEL
  }

  /** The slot `add_node` chooses for a timer due at `due` when the clock shows `now`. */
  function Place(due: nat, now: nat): (s: Slot)
    requires now <= due
    ensures IsSlot(s)
  {
    var d := due - now;
    if d < Span(0) then Near(due % NEAR)
    else if d < Span(1) then Level(0, Digit(due, 0))
    else if d < Span(2) then Level(1, Digit(due, 1))
    else if d < Span(3) then Level(2, Digit(due, 2))
    else Level(3, Digit(due, 3))
  }

  /** Slot 0 of the lower three levels, which `timer_shift` never empties. */
  predicate Stuck(s: Slot) {
    s.Level? && s.i < 3 && s.k == 0
  }

  /** The list `timer_shift` moves when the clock becomes `ct`. */
  function Drained(ct: nat): Drain {
    if ct % WRAP == 0 then Drain(Level(3, 0))
    else if ct % Span(0) != 0 then Nothing
    else if Digit(ct, 0) != 0 then Drain(Level(0, Digit(ct, 0)))
    else if Digit(ct, 1) != 0 then Drain(Level(1, Digit(ct, 1)))
    else if Digit(ct, 2) != 0 then Drain(Level(2, Digit(ct, 2)))
    else Drain(Level(3, Digit(ct, 3)))
  }

  /** Where a timer due at `due` and added at `added` is when the clock shows `now`: it starts where
      `add_node` puts it and is placed again whenever its list is moved. */
  function Loc(added: nat, due: nat, now: nat): (s: Slot)
    requires added <= due && added <= now
    ensures IsSlot(s)
    decreases now
  {
    if now == added then Place(due, added)
    else
      var s := Loc(added, due, now - 1);
      if Drained(now) == Drain(s) && now <= due then Place(due, now) else s
  }

  /** How often the timer has been moved by then. */
  function Moves(added: nat, due: nat, now: nat): nat
    requires added <= due && added <= now
    decreases now
  {
    if now == added then 0
    else
      Moves(added, due, now - 1)
      + if Drained(now) == Drain(Loc(added, due, now - 1)) && now <= due then 1 else 0
  }

  /** How many levels a timer in slot `s` has yet to come down. */
  function Height(s: Slot): nat {
    if s.Near? then 0 else s.i + 1
  }

  // ----- The placement invariant

  /** What is kept for a timer in slot `s`: in the near wheel it is at most 255 ticks away; in a level
      its list is moved at a tick still ahead, the start of the slot `due` falls into. */
  ghost predicate InSlot(due: nat, now: nat, s: Slot) {
    match s
    case Near(k) => now <= due < now + NEAR && k == due % NEAR
    case Level(i, k) =>
      && i < 4
      && k == Digit(due, i)
      && now / Span(i) < due / Span(i) <= now / Span(i) + LEVEL
  }

  lemma PlaceIsInSlot(due: nat, now: nat)
    requires now <= due < now + WRAP
    ensures InSlot(due, now, Place(due, now))
  {
  }

  /** Ticks covered by one turn of level `i`, the span of a slot one level up. */
  function Turn(i: nat): (s: nat)
    requires i < 4
    ensures s == Span(i) * LEVEL
  {
    if i == 3 then WRAP else Span(i + 1)
  }

  /** The clock as whole turns of a level, then slots, then ticks. */
  lemma TurnSplit(n: nat, i: nat)
    requires i < 4
    ensures n % Turn(i) == Span(i) * Digit(n, i) + n % Span(i)
    ensures n / Turn(i) == n / Span(i) / LEVEL
  {
    var s, q, r := Span(i), n / Span(i), n % Span(i);
    var u, d := q / LEVEL, q % LEVEL;
    assert n == s * q + r;
    assert s * q == s * LEVEL * u + s * d;
    assert 0 <= s * d <= s * (LEVEL - 1);
    DivModUnique(n, s * LEVEL, u, s * d + r);
  }

  /** `timer_shift` looks one level up exactly when the clock is at a multiple of the next span. */
  lemma SpanStep(n: nat, i: nat)
    requires i < 4
    ensures n % Turn(i) == 0 <==> n % Span(i) == 0 && Digit(n, i) == 0
  {
    TurnSplit(n, i);
  }

  /** `timer_shift` moves the list of level `i` only at a multiple of `Span(i)` whose digit it is. */
  lemma DrainedAtSpan(ct: nat, i: nat, k: nat)
    requires Drained(ct) == Drain(Level(i, k))
    ensures i < 4 && ct % Span(i) == 0 && k == Digit(ct, i) && !Stuck(Level(i, k))
  {
    SpanStep(ct, 0); SpanStep(ct, 1); SpanStep(ct, 2); SpanStep(ct, 3);
  }

  /** Conversely, at a multiple of `Span(i)` it moves that very list unless the digit is 0, which only
      the highest level is allowed. */
  lemma SpanIsDrained(ct: nat, i: nat)
    requires i < 4 && ct % Span(i) == 0
    requires i == 3 || Digit(ct, i) != 0
    ensures Drained(ct) == Drain(Level(i, Digit(ct, i)))
  {
    SpanStep(ct, 0); SpanStep(ct, 1); SpanStep(ct, 2); SpanStep(ct, 3);
  }

  // ----- One tick

  /** A list being moved finds each of its timers in the slot that has just begun, so the timer comes
      down at least one level, never into slot 0 of a level, and keeps the invariant. */
  lemma MovedDown(due: nat, ct: nat, i: nat, k: nat)
    requires ct > 0 && InSlot(due, ct - 1, Level(i, k)) && Drained(ct) == Drain(Level(i, k))
    ensures ct <= due < ct + Span(i)
    ensures InSlot(due, ct, Place(due, ct))
    ensures Height(Place(due, ct)) < Height(Level(i, k))
    ensures !Stuck(Place(due, ct))
  {
    DrainedAtSpan(ct, i, k);
    BeginsNow(due, ct, i);
    PlaceIsInSlot(due, ct);
    var p := Place(due, ct);
    if p.Level? {
      LowDigit(due, ct, i, p.i);
    }
  }

  /** At a multiple of the span whose slot is `due`'s, with the start of that slot ahead but within one
      turn, the start is now. */
  lemma BeginsNow(due: nat, ct: nat, i: nat)
    requires ct > 0 && i < 4 && ct % Span(i) == 0 && Digit(ct, i) == Digit(due, i)
    requires (ct - 1) / Span(i) < due / Span(i) <= (ct - 1) / Span(i) + LEVEL
    ensures due / Span(i) == ct / Span(i)
  {
    var c := (ct - 1) / Span(i);
    assert ct / Span(i) == c + 1 by {
      var q := ct / Span(i);
      DivModUnique(ct - 1, Span(i), q - 1, Span(i) - 1);
    }
  }

  /** Right after a multiple of a higher span, the digits of the distance are the digits of `due`. */
  lemma LowDigit(due: nat, ct: nat, i: nat, j: nat)
    requires j < i < 4 && ct % Span(i) == 0
    requires Span(j) <= due - ct < Turn(j)
    ensures Digit(due, j) != 0
  {
    var q := ct / Span(i);
    assert ct == Span(i) * q;
    var m := Span(i) / Turn(j);
    assert Span(i) == Turn(j) * m;
    assert ct == Turn(j) * (m * q) by { assert Turn(j) * m * q == Turn(j) * (m * q); }
    DivModUnique(due, Turn(j), m * q, due - ct);
    TurnSplit(due, j);
  }

  /** A timer whose list is not moved keeps the invariant, if it has not come due before. */
  lemma StaysInSlot(due: nat, ct: nat, s: Slot)
    requires ct > 0 && InSlot(due, ct - 1, s) && !Stuck(s)
    requires Drained(ct) != Drain(s)
    requires s.Near? ==> ct <= due
    ensures InSlot(due, ct, s)
  {
    if s.Level? && ct / Span(s.i) == due / Span(s.i) {
      var c := (ct - 1) / Span(s.i);
      NextMultiple(ct, Span(s.i));
      SpanIsDrained(ct, s.i);
    } else if s.Level? {
      NextMultiple(ct, Span(s.i));
    }
  }

  /** The quotient grows by one tick exactly at a multiple. */
  lemma NextMultiple(ct: nat, m: nat)
    requires ct > 0 && m > 0
    ensures ct % m == 0 ==> ct / m == (ct - 1) / m + 1
    ensures ct % m != 0 ==> ct / m == (ct - 1) / m
  {
    if ct % m == 0 {
      DivModUnique(ct - 1, m, ct / m - 1, m - 1);
    } else {
      DivModUnique(ct - 1, m, ct / m, ct % m - 1);
    }
  }

  // ----- Whole runs

  /** Along every stretch of time up to its due tick, a timer not placed in slot 0 of the lower levels
      keeps the invariant, never enters such a slot, and is higher by at least one level for each
      time it is still to be moved. Started in such a slot, it is never moved at all. */
  lemma {:induction false} Trajectory(added: nat, due: nat, now: nat)
    requires added <= now && added < due < added + WRAP
    ensures Stuck(Place(due, added)) ==> Loc(added, due, now) == Place(due, added)
    ensures !Stuck(Place(due, added)) && now <= due ==>
      && !Stuck(Loc(added, due, now))
      && InSlot(due, now, Loc(added, due, now))
    ensures Moves(added, due, now) + Height(Loc(added, due, now)) <= Height(Place(due, added))
    decreases now
  {
    if now == added {
      PlaceIsInSlot(due, added);
    } else {
      Trajectory(added, due, now - 1);
      var s := Loc(added, due, now - 1);
      if Drained(now) == Drain(s) {
        DrainedAtSpan(now, s.i, s.k);
        if now <= due {
          MovedDown(due, now, s.i, s.k);
        }
      } else if !Stuck(Place(due, added)) && now <= due {
        StaysInSlot(due, now, s);
      }
    }
  }

  /** A timer is moved at most four times. */
  lemma AtMostFourMoves(added: nat, due: nat, now: nat)
    requires added <= now && added < due < added + WRAP
    ensures Moves(added, due, now) <= 4
  {
    Trajectory(added, due, now);
  }

  /** The tick at which `timer_execute` finds the timer in the near slot of the clock. */
  ghost predicate Found(added: nat, due: nat, now: nat)
    requires added <= now && added <= due
  {
    Loc(added, due, now) == Near(now % NEAR)
  }

  /** Times less than a turn of the near wheel apart share a near slot only if they are equal. */
  lemma NearSlots(due: nat, now: nat)
    requires now <= due < now + NEAR
    ensures due % NEAR == now % NEAR <==> due == now
  {
  }

  /** Before the due tick a timer is not found, and a stuck one never is. */
  lemma NotFoundBefore(added: nat, due: nat, now: nat)
    requires added <= now && added < due < added + WRAP
    requires Stuck(Place(due, added)) || now < due
    ensures !Found(added, due, now)
  {
    Trajectory(added, due, now);
    if !Stuck(Place(due, added)) && Loc(added, due, now).Near? {
      NearSlots(due, now);
    }
  }

  /** A timer is found at its due tick and at no tick before it exactly when it was not placed in slot
      0 of a lower level; otherwise it is found at no tick, however late. */
  lemma FiresExactlyIff(added: nat, due: nat)
    requires added < due < added + WRAP
    ensures !Stuck(Place(due, added)) ==>
      Found(added, due, due) && forall n | added <= n < due :: !Found(added, due, n)
    ensures Stuck(Place(due, added)) ==> forall n | added <= n :: !Found(added, due, n)
  {
    if !Stuck(Place(due, added)) {
      Trajectory(added, due, due);
    }
    forall n | added <= n && (Stuck(Place(due, added)) || n < due)
      ensures !Found(added, due, n)
    {
      NotFoundBefore(added, due, n);
    }
  }

  /** The condition in terms of the call: which delays are lost when the clock shows `now`. */
  lemma LostDelays(now: nat, delay: nat)
    requires 0 < delay < WRAP
    ensures Stuck(Place(now + delay, now)) <==>
      exists i :: 0 <= i < 3 && Span(i) <= delay < Turn(i) && (now + delay) % Turn(i) < Span(i)
  {
    var due := now + delay;
    TurnSplit(due, 0); TurnSplit(due, 1); TurnSplit(due, 2);
    var p := Place(due, now);
    forall i | 0 <= i < 3 && Span(i) <= delay < Turn(i)
      ensures p == Level(i, Digit(due, i))
      ensures Digit(due, i) == 0 <==> due % Turn(i) < Span(i)
    {
      TurnSplit(due, i);
    }
    if Stuck(p) {
      assert 0 <= p.i < 3 && Span(p.i) <= delay < Turn(p.i) && (now + delay) % Turn(p.i) < Span(p.i);
    }
  }

  /** Such delays exist: 256 ticks asked for at tick 16128. */
  lemma LostExample()
    ensures Stuck(Place(16128 + 256, 16128))
    ensures forall n | 16128 <= n :: !Found(16128, 16384, n)
  {
    FiresExactlyIff(16128, 16384);
  }
}
