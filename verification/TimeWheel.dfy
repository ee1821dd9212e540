/** The timing wheel itself: 256 near lists, four levels of 64 lists and a 32-bit clock, updated in
    place by `add_timer`, `timer_update` and `del_timer`. The unbounded clock of WheelClock is a ghost
    field, so the invariant speaks of whole runs, wrap-around included. */
module TimeWheel {
  import opened Arith
  import opened WheelClock

  const MAX_INT := 0x7fff_ffff

  /** A timer. `expire` is what the program stores; `added` and `due` are the ticks it stands for, and `no`
      numbers the timers as they are added. */
  class TimerNode {
    const expire: nat
    const id: int
    var cancel: bool
    ghost const added: nat
    ghost const due: nat
    ghost const no: nat

    constructor (expire: nat, id: int, ghost added: nat, ghost due: nat, ghost no: nat)
      ensures this.expire == expire && this.id == id && !this.cancel
      ensures this.added == added && this.due == due && this.no == no
    {
      this.expire, this.id, this.cancel := expire, id, false;
      this.added, this.due, this.no := added, due, no;
    }
  }

  /** A well-formed timer: added with a positive C `int` delay, its expiry kept modulo 2^32. */
  ghost predicate TimerOk(x: TimerNode, now: nat) {
    x.added <= now && x.added < x.due <= x.added + MAX_INT && x.expire == x.due % WRAP
  }

  /** Of two timers added at one tick for the same tick, `x` was added first. */
  ghost predicate Earlier(x: TimerNode, y: TimerNode) {
    x.added == y.added && x.due == y.due ==> x.no < y.no
  }

  /** The pairs of positions at which such timers stand the wrong way round. */
  ghost function Swapped(xs: seq<TimerNode>): set<(nat, nat)> {
    set i: nat, j: nat | i < j < |xs| && !Earlier(xs[i], xs[j]) :: (i, j)
  }

  /** Such timers stand in the order in which they were added. */
  ghost predicate Ordered(xs: seq<TimerNode>) {
    Swapped(xs) == {}
  }

  lemma OrderedAt(xs: seq<TimerNode>, i: nat, j: nat)
    requires Ordered(xs) && i < j < |xs|
    ensures Earlier(xs[i], xs[j])
  {
    assert !Earlier(xs[i], xs[j]) ==> (i, j) in Swapped(xs);
  }

  lemma OrderedIf(xs: seq<TimerNode>)
    requires forall i, j | 0 <= i < j < |xs| :: Earlier(xs[i], xs[j])
    ensures Ordered(xs)
  {
  }

  lemma OrderedConcat(a: seq<TimerNode>, b: seq<TimerNode>)
    requires Ordered(a) && Ordered(b)
    requires forall i, j | 0 <= i < |a| && 0 <= j < |b| :: Earlier(a[i], b[j])
    ensures Ordered(a + b)
  {
    forall i, j | 0 <= i < j < |a + b|
      ensures Earlier((a + b)[i], (a + b)[j])
    {
      if j < |a| {
        OrderedAt(a, i, j);
      } else if i >= |a| {
        OrderedAt(b, i - |a|, j - |a|);
      } else {
        assert Earlier(a[i], b[j - |a|]);
      }
    }
    OrderedIf(a + b);
  }

  lemma OrderedLast(a: seq<TimerNode>, y: TimerNode)
    requires Ordered(a) && forall x | x in a :: Earlier(x, y)
    ensures Ordered(a + [y])
  {
    OrderedIf([y]);
    assert forall i | 0 <= i < |a| :: a[i] in a;
    OrderedConcat(a, [y]);
  }

  lemma OrderedFront(xs: seq<TimerNode>, n: nat)
    requires Ordered(xs) && n <= |xs|
    ensures Ordered(xs[..n])
  {
    forall i, j | 0 <= i < j < n
      ensures Earlier(xs[..n][i], xs[..n][j])
    {
      OrderedAt(xs, i, j);
    }
    OrderedIf(xs[..n]);
  }

  /** A number above those of all timers so far. */
  lemma NextNo(known: set<TimerNode>) returns (no: nat)
    ensures forall x | x in known :: x.no < no
    decreases |known|
  {
    if known == {} {
      no := 0;
    } else {
      var x :| x in known;
      no := NextNo(known - {x});
      no := if x.no < no then no else x.no + 1;
    }
  }

  /** A timer whose expiry still says where it goes. */
  ghost predicate Movable(x: TimerNode, now: nat) {
    x.expire == x.due % WRAP && now <= x.due < now + WRAP
  }

  /** A timer that was put in slot 0 of one of the lower levels. */
  ghost predicate Lost(x: TimerNode) {
    x.added <= x.due && Stuck(Place(x.due, x.added))
  }

  /** What happens while the lock is released: callbacks and other threads add and delete timers. */
  datatype Call = Add(delay: int, id: int) | Del(node: TimerNode)

  /** A dispatched timer: when, and whether its callback ran. */
  datatype Firing = Firing(node: TimerNode, at: nat, called: bool)

  predicate IntDelays(calls: seq<Call>) {
    forall c | c in calls && c.Add? :: -MAX_INT - 1 <= c.delay <= MAX_INT
  }

  function Targets(calls: seq<Call>): set<TimerNode> {
    set c | c in calls && c.Del? :: c.node
  }

  /** One entry for each moment between two dispatched nodes. */
  predicate IntScript(script: seq<seq<Call>>) {
    forall w | w in script :: IntDelays(w)
  }

  function Window(script: seq<seq<Call>>, n: nat): (calls: seq<Call>)
    ensures IntScript(script) ==> IntDelays(calls)
    ensures Targets(calls) <= ScriptTargets(script)
  {
    if n < |script| then script[n] else []
  }

  function ScriptTargets(script: seq<seq<Call>>): set<TimerNode> {
    set w, c | w in script && c in w && c.Del? :: c.node
  }

  ghost predicate NoDup<T>(xs: seq<T>) {
    forall i, j | 0 <= i < j < |xs| :: xs[i] != xs[j]
  }

  ghost function Nodes(log: seq<Firing>): set<TimerNode> {
    set e | e in log :: e.node
  }

  /** The timers of the log and behind them those taken out. */
  ghost function NodeAt(log: seq<Firing>, out: seq<TimerNode>, i: nat): TimerNode
    requires i < |log| + |out|
  {
    if i < |log| then log[i].node else out[i - |log|]
  }

  ghost predicate RightTurn(log: seq<Firing>, out: seq<TimerNode>, d: nat, i: nat, j: nat)
    requires i <= j < |log| + |out|
  {
    && (i < j ==> Earlier(NodeAt(log, out, i), NodeAt(log, out, j)))
    && (j < |log| ==> log[i].at <= log[j].at < d)
  }

  ghost function WrongTurns(log: seq<Firing>, out: seq<TimerNode>, d: nat): set<(nat, nat)> {
    set i: nat, j: nat | i <= j < |log| + |out| && !RightTurn(log, out, d, i, j) :: (i, j)
  }

  /** The log goes by ticks, all of them before `d`, and of the timers added at one tick for the same tick
      those added first are first in it and in what is taken out to follow. */
  ghost predicate InTurn(log: seq<Firing>, out: seq<TimerNode>, d: nat) {
    WrongTurns(log, out, d) == {}
  }

  lemma InTurnAt(log: seq<Firing>, out: seq<TimerNode>, d: nat, i: nat, j: nat)
    requires InTurn(log, out, d) && i <= j < |log| + |out|
    ensures RightTurn(log, out, d, i, j)
  {
    assert !RightTurn(log, out, d, i, j) ==> (i, j) in WrongTurns(log, out, d);
  }

  lemma InTurnIf(log: seq<Firing>, out: seq<TimerNode>, d: nat)
    requires forall i: nat, j: nat | i <= j < |log| + |out| :: RightTurn(log, out, d, i, j)
    ensures InTurn(log, out, d)
  {
  }

  /** What moves on when a timer is dispatched. */
  lemma DispatchTurn(log: seq<Firing>, out: seq<TimerNode>, e: Firing, d: nat)
    requires out != [] && e.node == out[0] && e.at + 1 == d && InTurn(log, out, d)
    ensures InTurn(log + [e], out[1..], d)
  {
    forall i: nat, j: nat | i <= j < |log| + |out|
      ensures RightTurn(log + [e], out[1..], d, i, j)
    {
      InTurnAt(log, out, d, i, j);
      InTurnAt(log, out, d, i, i);
    }
    InTurnIf(log + [e], out[1..], d);
  }

  /** The list taken out at a new tick comes behind everything in the log. */
  lemma DetachTurn(log: seq<Firing>, out: seq<TimerNode>, d: nat, d': nat)
    requires InTurn(log, [], d) && d <= d' && Ordered(out)
    requires forall i | 0 <= i < |log| :: log[i].at == log[i].node.due
    requires forall i | 0 <= i < |out| :: out[i].due >= d
    ensures InTurn(log, out, d')
  {
    forall i: nat, j: nat | i <= j < |log| + |out|
      ensures RightTurn(log, out, d', i, j)
    {
      if j < |log| {
        InTurnAt(log, [], d, i, j);
      } else if i >= |log| {
        if i < j {
          OrderedAt(out, i - |log|, j - |log|);
        }
      } else {
        InTurnAt(log, [], d, i, i);
        assert out[j - |log|].due >= d;
      }
    }
    InTurnIf(log, out, d');
  }

  /** Every timer ever added is pending, taken out for dispatch, or in the log, once; the log holds
      only timers that are not lost, at their due tick. */
  ghost predicate LogOk(now: nat, known: set<TimerNode>, pending: set<TimerNode>, log: seq<Firing>,
                        out: seq<TimerNode>) {
    && (forall x | x in known :: TimerOk(x, now))
    && NoDup(out)
    && (forall x | x in out :: x !in pending && x !in Nodes(log) && !Lost(x) && x.due == now)
    && (forall i, j | 0 <= i < j < |log| :: log[i].node != log[j].node)
    && (forall e | e in log :: e.node !in pending && !Lost(e.node) && e.at == e.node.due <= now)
    && known == pending + (set x | x in out) + Nodes(log)
  }

  lemma LogEnter(now: nat, known: set<TimerNode>, pending: set<TimerNode>, log: seq<Firing>,
                 out: seq<TimerNode>, node: TimerNode)
    requires LogOk(now, known, pending, log, out) && node !in known && TimerOk(node, now)
    ensures LogOk(now, known + {node}, pending + {node}, log, out)
  {
    forall e | e in log
      ensures e.node != node
    {
      assert e.node in Nodes(log);
    }
  }

  /** What a stretch of unlocked time may do to the wheel: enter new timers, none of them due before
      the next tick. */
  ghost predicate Grew(known0: set<TimerNode>, pending0: set<TimerNode>, known: set<TimerNode>,
                       pending: set<TimerNode>, now: nat) {
    known0 <= known && pending == pending0 + (known - known0) && forall x | x in known - known0 :: x.due > now
  }

  lemma GrewMore(known0: set<TimerNode>, pending0: set<TimerNode>, known1: set<TimerNode>,
                 pending1: set<TimerNode>, known: set<TimerNode>, pending: set<TimerNode>, now: nat)
    requires Grew(known0, pending0, known1, pending1, now) && Grew(known1, pending1, known, pending, now)
    ensures Grew(known0, pending0, known, pending, now)
  {
  }

  /** The log after dispatching `nodes` in order; the callbacks of `dead` ones did not run. */
  ghost predicate Dispatched(before: seq<Firing>, after: seq<Firing>, nodes: seq<TimerNode>, now: nat,
                             dead: set<TimerNode>) {
    && |after| == |before| + |nodes|
    && after[..|before|] == before
    && forall i | |before| <= i < |after| ::
         && after[i].node == nodes[i - |before|]
         && after[i].at == now
         && (after[i].node in dead ==> !after[i].called)
  }

  lemma DispatchedSnoc(before: seq<Firing>, after: seq<Firing>, nodes: seq<TimerNode>, n: nat, now: nat,
                       dead: set<TimerNode>, called: bool)
    requires n < |nodes| && Dispatched(before, after, nodes[..n], now, dead)
    requires nodes[n] in dead ==> !called
    ensures Dispatched(before, after + [Firing(nodes[n], now, called)], nodes[..n + 1], now, dead)
  {
    var longer := after + [Firing(nodes[n], now, called)];
    assert longer[..|before|] == after[..|before|];
    assert forall i | |before| <= i < |after| ::
      longer[i] == after[i] && nodes[..n][i - |before|] == nodes[..n + 1][i - |before|];
  }

  /** One run of `timer_execute`: of the pending timers, those due now that are not lost leave the
      wheel for the log; the callback of a cancelled one (`dead`) does not run. */
  ghost predicate Executed(known0: set<TimerNode>, pending0: set<TimerNode>, log0: seq<Firing>,
                           known: set<TimerNode>, pending: set<TimerNode>, log: seq<Firing>,
                           now: nat, dead: set<TimerNode>) {
    && known0 <= known
    && (forall x | x in known - known0 :: x.due > now)
    && pending == (set x | x in pending0 && (Lost(x) || x.due > now)) + (known - known0)
    && |log0| <= |log| && log[..|log0|] == log0
    && (forall i | |log0| <= i < |log| ::
         && log[i].node in pending0
         && log[i].at == now
         && (log[i].node in dead ==> !log[i].called))
  }

  /** What a number of ticks did: nothing was taken back from the log, what was added is of these ticks,
      and the timers pending before are pending still exactly if lost or due later. */
  ghost predicate Advanced(known0: set<TimerNode>, pending0: set<TimerNode>, log0: seq<Firing>, now0: nat,
                           known: set<TimerNode>, pending: set<TimerNode>, log: seq<Firing>, now: nat) {
    && known0 <= known
    && (forall x | x in pending0 :: x in pending <==> Lost(x) || x.due > now)
    && |log0| <= |log| && log[..|log0|] == log0
    && (forall i | |log0| <= i < |log| :: now0 < log[i].at <= now)
  }

  lemma AdvancedNone(now: nat, known: set<TimerNode>, pending: set<TimerNode>, log: seq<Firing>)
    requires forall x | x in pending :: Lost(x) || x.due > now
    ensures Advanced(known, pending, log, now, known, pending, log, now)
  {
  }

  lemma AdvancedMore(known0: set<TimerNode>, pending0: set<TimerNode>, log0: seq<Firing>, now0: nat,
                     known1: set<TimerNode>, pending1: set<TimerNode>, log1: seq<Firing>,
                     known: set<TimerNode>, pending: set<TimerNode>, log: seq<Firing>, now: nat,
                     dead: set<TimerNode>)
    requires now0 < now && pending0 <= known0 && Advanced(known0, pending0, log0, now0, known1, pending1, log1, now - 1)
    requires Executed(known1, pending1, log1, known, pending, log, now, dead)
    ensures Advanced(known0, pending0, log0, now0, known, pending, log, now)
  {
    assert log[..|log0|] == log1[..|log0|];
    forall i | |log0| <= i < |log|
      ensures now0 < log[i].at <= now
    {
      assert i < |log1| ==> log[i] == log1[i];
    }
  }

  function TickTargets(scripts: seq<(seq<seq<Call>>, seq<seq<Call>>)>): set<TimerNode> {
    set p, x | p in scripts && x in ScriptTargets(p.0) + ScriptTargets(p.1) :: x
  }

  lemma TickTargetsOf(scripts: seq<(seq<seq<Call>>, seq<seq<Call>>)>, p: (seq<seq<Call>>, seq<seq<Call>>))
    requires p in scripts || p == ([], [])
    ensures ScriptTargets(p.0) + ScriptTargets(p.1) <= TickTargets(scripts)
  {
    forall x | x in ScriptTargets(p.0) + ScriptTargets(p.1)
      ensures x in TickTargets(scripts)
    {
      assert p in scripts;
    }
  }

  lemma LogDispatch(now: nat, known: set<TimerNode>, pending: set<TimerNode>, log: seq<Firing>,
                    out: seq<TimerNode>, called: bool)
    requires LogOk(now, known, pending, log, out) && out != []
    ensures LogOk(now, known, pending, log + [Firing(out[0], now, called)], out[1..])
  {
    var e := Firing(out[0], now, called);
    assert Nodes(log + [e]) == Nodes(log) + {out[0]} by {
      assert e in log + [e];
      assert forall f | f in log :: f in log + [e];
    }
    assert (set x | x in out) == (set x | x in out[1..]) + {out[0]};
    forall i | 0 <= i < |log|
      ensures log[i].node != out[0]
    {
      assert log[i] in log && log[i].node in Nodes(log);
    }
  }

  lemma LogDetach(now: nat, known: set<TimerNode>, pending: set<TimerNode>, log: seq<Firing>,
                  out: seq<TimerNode>)
    requires LogOk(now, known, pending, log, [])
    requires NoDup(out) && forall x | x in out :: x in pending && !Lost(x) && x.due == now
    ensures LogOk(now, known, pending - (set x | x in out), log, out)
  {
  }

  lemma Aged(now: nat, known: set<TimerNode>, pending: set<TimerNode>, log: seq<Firing>)
    requires LogOk(now, known, pending, log, [])
    ensures LogOk(now + 1, known, pending, log, [])
  {
  }

  // ----- Clock arithmetic modulo 2^32

  /** The program's distance `expire - T->time` and its slot digits are the unbounded ones. */
  lemma WrappedDistance(due: nat, now: nat)
    requires now <= due < now + WRAP
    ensures (due % WRAP - now % WRAP) % WRAP == due - now
  {
    var d := due % WRAP - now % WRAP;
    var q := (due - now - d) / WRAP;
    assert due - now - d == WRAP * (due / WRAP - now / WRAP);
    DivModUnique(d, WRAP, -(due / WRAP - now / WRAP), due - now);
  }

  lemma WrappedExpiry(now: nat, delay: nat)
    ensures (delay + now % WRAP) % WRAP == (now + delay) % WRAP
  {
    var q, e := now / WRAP, delay + now % WRAP;
    assert now + delay == WRAP * q + e;
    DivModUnique(now + delay, WRAP, q + e / WRAP, e % WRAP);
  }

  lemma WrappedDigit(due: nat, i: nat)
    requires i < 4
    ensures Digit(due % WRAP, i) == Digit(due, i)
    ensures due % WRAP % NEAR == due % NEAR
  {
    if i == 0 {
      ModOfMod(due, Turn(0), 0x4_0000);
    } else if i == 1 {
      ModOfMod(due, Turn(1), 0x1000);
    } else if i == 2 {
      ModOfMod(due, Turn(2), 0x40);
    } else {
      ModOfMod(due, Turn(3), 1);
    }
    ModOfMod(due, NEAR, 0x100_0000);
    SameRemainder(due, due % WRAP, i);
  }

  lemma SameRemainder(a: nat, b: nat, i: nat)
    requires i < 4 && a % Turn(i) == b % Turn(i)
    ensures Digit(a, i) == Digit(b, i)
  {
    TurnSplit(a, i);
    TurnSplit(b, i);
    assert Span(i) * (Digit(a, i) - Digit(b, i)) == b % Span(i) - a % Span(i);
    SmallMultiple(Span(i), Digit(a, i) - Digit(b, i));
  }

  // ----- Distributing a moved list

  /** The timers of a moved list that land in slot `s`, in order. */
  ghost function Landing(xs: seq<TimerNode>, now: nat, s: Slot): (r: seq<TimerNode>)
    ensures forall x | x in r :: x in xs && now <= x.due && Place(x.due, now) == s
    ensures forall x | x in xs && now <= x.due && Place(x.due, now) == s :: x in r
  {
    if xs == [] then []
    else
      var rest, x := Landing(xs[..|xs| - 1], now, s), xs[|xs| - 1];
      if now <= x.due && Place(x.due, now) == s then rest + [x] else rest
  }

  lemma LandingSnoc(xs: seq<TimerNode>, n: nat, now: nat, s: Slot)
    requires n < |xs| && now <= xs[n].due
    ensures Landing(xs[..n + 1], now, s)
         == Landing(xs[..n], now, s) + if Place(xs[n].due, now) == s then [xs[n]] else []
  {
    assert xs[..n + 1][..n] == xs[..n];
  }

  lemma LandingNoDup(xs: seq<TimerNode>, now: nat, s: Slot)
    requires NoDup(xs)
    ensures NoDup(Landing(xs, now, s))
  {
    if xs != [] {
      LandingNoDup(xs[..|xs| - 1], now, s);
    }
  }

  lemma LandingOrdered(xs: seq<TimerNode>, now: nat, s: Slot)
    requires Ordered(xs)
    ensures Ordered(Landing(xs, now, s))
  {
    if xs != [] {
      var rest, x := Landing(xs[..|xs| - 1], now, s), xs[|xs| - 1];
      OrderedFront(xs, |xs| - 1);
      LandingOrdered(xs[..|xs| - 1], now, s);
      forall y | y in rest
        ensures Earlier(y, x)
      {
        assert y in xs[..|xs| - 1];
        var k :| 0 <= k < |xs| - 1 && xs[..|xs| - 1][k] == y;
        OrderedAt(xs, k, |xs| - 1);
      }
      OrderedLast(rest, x);
    }
  }

  // ----- The lists as a function of the slot

  /** The lists hold the pending timers, each once, at the place its history gives. */
  ghost predicate Holds(lists: Slot -> seq<TimerNode>, pending: set<TimerNode>, now: nat) {
    && (forall x | x in pending :: TimerOk(x, now) && x in lists(Loc(x.added, x.due, now)))
    && (forall s | IsSlot(s) :: NoDup(lists(s)) && Ordered(lists(s)))
    && (forall s, x | IsSlot(s) && x in lists(s) :: x in pending && Loc(x.added, x.due, now) == s)
  }

  /** A list of a wheel that a new timer has entered. */
  ghost function Entered(lists: Slot -> seq<TimerNode>, node: TimerNode, now: nat, s: Slot): (r: seq<TimerNode>)
    requires now <= node.due
  {
    if s == Place(node.due, now) then lists(s) + [node] else lists(s)
  }

  lemma EnterHolds(lists: Slot -> seq<TimerNode>, pending: set<TimerNode>, now: nat, node: TimerNode)
    requires Holds(lists, pending, now) && node !in pending && TimerOk(node, now) && node.added == now
    requires forall x | x in pending :: x.no < node.no
    ensures Holds(s => Entered(lists, node, now, s), pending + {node}, now)
  {
    assert Loc(node.added, node.due, now) == Place(node.due, now);
    forall s | IsSlot(s)
      ensures NoDup(Entered(lists, node, now, s)) && Ordered(Entered(lists, node, now, s))
    {
      NoDupConcat(lists(s), [node]);
      OrderedLast(lists(s), node);
    }
  }

  ghost function Emptied(lists: Slot -> seq<TimerNode>, d: Slot, s: Slot): (r: seq<TimerNode>) {
    if s == d then [] else lists(s)
  }

  /** Emptying one list takes its timers out of the wheel and leaves the other lists as they are. */
  lemma DetachHolds(lists: Slot -> seq<TimerNode>, pending: set<TimerNode>, now: nat, d: Slot)
    requires Holds(lists, pending, now) && IsSlot(d)
    ensures Holds(s => Emptied(lists, d, s), pending - (set x | x in lists(d)), now)
  {
    var rest := pending - (set x | x in lists(d));
    forall x | x in rest
      ensures TimerOk(x, now) && x in Emptied(lists, d, Loc(x.added, x.due, now))
    {
      assert x in lists(Loc(x.added, x.due, now));
    }
    forall s, x | IsSlot(s) && x in Emptied(lists, d, s)
      ensures x in rest && Loc(x.added, x.due, now) == s
    {
      assert x in lists(s);
    }
  }

  /** The list at `s` after `timer_shift` has made the clock `now`. */
  ghost function Shifted(lists: Slot -> seq<TimerNode>, now: nat, s: Slot): (r: seq<TimerNode>)
  {
    match Drained(now)
    case Nothing => lists(s)
    case Drain(d) => (if s == d then [] else lists(s)) + Landing(lists(d), now, s)
  }

  /** Where one pending timer is after the shift. */
  lemma ShiftOne(lists: Slot -> seq<TimerNode>, pending: set<TimerNode>, now: nat, x: TimerNode)
    requires now > 0 && Holds(lists, pending, now - 1) && x in pending && (Lost(x) || now <= x.due)
    ensures x in Shifted(lists, now, Loc(x.added, x.due, now))
    ensures forall s | IsSlot(s) && x in Shifted(lists, now, s) :: Loc(x.added, x.due, now) == s
  {
    Trajectory(x.added, x.due, now - 1);
    var s := Loc(x.added, x.due, now - 1);
    if Drained(now) == Drain(s) {
      DrainedAtSpan(now, s.i, s.k);
    }
  }

  lemma NoDupConcat<T>(a: seq<T>, b: seq<T>)
    requires NoDup(a) && NoDup(b) && forall x | x in a :: x !in b
    ensures NoDup(a + b)
  {
    forall i, j | 0 <= i < j < |a + b|
      ensures (a + b)[i] != (a + b)[j]
    {
      if i < |a| <= j {
        assert a[i] in a && b[j - |a|] in b;
      }
    }
  }

  /** What lands behind another list has been placed otherwise than what is there. */
  lemma OrderedApart(lists: Slot -> seq<TimerNode>, pending: set<TimerNode>, now: nat, s: Slot, d: Slot)
    requires now > 0 && Holds(lists, pending, now - 1) && IsSlot(s) && IsSlot(d)
    ensures Ordered((if s == d then [] else lists(s)) + Landing(lists(d), now, s))
  {
    var kept, landed := if s == d then [] else lists(s), Landing(lists(d), now, s);
    LandingOrdered(lists(d), now, s);
    forall i, j | 0 <= i < |kept| && 0 <= j < |landed|
      ensures Earlier(kept[i], landed[j])
    {
      assert kept[i] in lists(s) && landed[j] in landed && landed[j] in lists(d);
      assert Loc(kept[i].added, kept[i].due, now - 1) == s && Loc(landed[j].added, landed[j].due, now - 1) == d;
    }
    if s == d {
      OrderedIf(kept);
    }
    OrderedConcat(kept, landed);
  }

  /** One list after the shift: nothing twice, nothing new. */
  lemma ShiftSlot(lists: Slot -> seq<TimerNode>, pending: set<TimerNode>, now: nat, s: Slot)
    requires now > 0 && Holds(lists, pending, now - 1) && IsSlot(s)
    requires forall x | x in pending :: Lost(x) || now <= x.due
    ensures NoDup(Shifted(lists, now, s)) && Ordered(Shifted(lists, now, s))
    ensures forall x | x in Shifted(lists, now, s) :: x in pending
  {
    var dr := Drained(now);
    if dr.Drain? {
      DrainedAtSpan(now, dr.slot.i, dr.slot.k);
      LandingNoDup(lists(dr.slot), now, s);
      var kept, landed := if s == dr.slot then [] else lists(s), Landing(lists(dr.slot), now, s);
      forall x | x in kept
        ensures x !in landed
      {
        assert Loc(x.added, x.due, now - 1) == s;
      }
      NoDupConcat(kept, landed);
      LandingOrdered(lists(dr.slot), now, s);
      OrderedApart(lists, pending, now, s, dr.slot);
    }
  }

  lemma ShiftHolds(lists: Slot -> seq<TimerNode>, pending: set<TimerNode>, now: nat)
    requires now > 0 && Holds(lists, pending, now - 1)
    requires forall x | x in pending :: Lost(x) || now <= x.due
    ensures Holds(s => Shifted(lists, now, s), pending, now)
  {
    forall x | x in pending
      ensures TimerOk(x, now) && x in Shifted(lists, now, Loc(x.added, x.due, now))
    {
      ShiftOne(lists, pending, now, x);
    }
    forall s | IsSlot(s)
      ensures NoDup(Shifted(lists, now, s)) && Ordered(Shifted(lists, now, s))
      ensures forall x | x in Shifted(lists, now, s) :: x in pending
    {
      ShiftSlot(lists, pending, now, s);
    }
    forall s, x | IsSlot(s) && x in Shifted(lists, now, s)
      ensures Loc(x.added, x.due, now) == s
    {
      ShiftOne(lists, pending, now, x);
    }
  }

  class TimerWheel {
    const near: array<seq<TimerNode>>
    const t: array2<seq<TimerNode>>
    var time: nat
    var currentPoint: nat

    ghost var now: nat                  // the clock, unbounded
    ghost var known: set<TimerNode>     // every timer ever put in the wheel
    ghost var pending: set<TimerNode>   // the timers in its lists
    ghost var log: seq<Firing>          // the timers dispatched, in order
    ghost var cancelled: set<TimerNode> // the timers del_timer was called on
    ghost var atOnce: seq<int>          // the ids called by add_timer itself

    ghost predicate Shape() {
      near.Length == NEAR && t.Length0 == 4 && t.Length1 == LEVEL
    }

    ghost function List(s: Slot): seq<TimerNode>
      requires Shape() && IsSlot(s)
      reads near, t
    {
      match s
      case Near(k) => near[k]
      case Level(i, k) => t[i, k]
    }

    /** The lists hold the pending timers, each once, at the place its history gives. */
    ghost predicate ListsOk()
      reads this`now, this`pending, near, t
    {
      && Shape()
      && (forall x | x in pending :: TimerOk(x, now) && x in List(Loc(x.added, x.due, now)))
      && (forall s | IsSlot(s) :: NoDup(List(s)) && Ordered(List(s)))
      && (forall s, x | IsSlot(s) && x in List(s) :: x in pending && Loc(x.added, x.due, now) == s)
    }

    /** The cancel flags; a callback that did not run was cancelled. */
    ghost predicate CancelOk()
      reads this`known, this`cancelled, this`log, known
    {
      && (forall x | x in known :: x.cancel == (x in cancelled))
      && (forall e | e in log && !e.called :: e.node in cancelled)
    }

    /** The invariant when everything due before tick `d` has been dispatched and `out` is held by
        `dispatch_list`. */
    ghost predicate Inv(d: nat, out: seq<TimerNode>)
      reads this, near, t, known
    {
      && time == now % WRAP
      && CancelOk()
      && ListsOk()
      && LogOk(now, known, pending, log, out)
      && (forall x | x in pending :: Lost(x) || d <= x.due)
      && InTurn(log, out, d)
    }

    ghost predicate Valid()
      reads this, near, t, known
    {
      Inv(now + 1, [])
    }

    constructor (point: nat)
      ensures Valid() && fresh(near) && fresh(t)
      ensures now == 0 && known == {} && log == [] && currentPoint == point
    {
      near := new seq<TimerNode>[NEAR](_ => []);
      t := new seq<TimerNode>[4, LEVEL]((_, _) => []);
      time, currentPoint := 0, point;
      now, known, pending, log, cancelled, atOnce := 0, {}, {}, [], {}, [];
    }

    /** Appends the node to the list its distance from the clock selects. */
    method AddNode(node: TimerNode)
      requires Shape() && time == now % WRAP
      requires node.expire == node.due % WRAP && now <= node.due < now + WRAP
      modifies near, t
      ensures List(Place(node.due, now)) == old(List(Place(node.due, now))) + [node]
      ensures forall s | IsSlot(s) && s != Place(node.due, now) :: List(s) == old(List(s))
    {
      WrappedDistance(node.due, now);
      WrappedDigit(node.due, 0); WrappedDigit(node.due, 1);
      WrappedDigit(node.due, 2); WrappedDigit(node.due, 3);
      var msec := (node.expire - time) % WRAP;
      if msec < NEAR {
        var k := node.expire % NEAR;
        near[k] := near[k] + [node];
      } else if msec < 0x4000 {
        var k := node.expire / 0x100 % LEVEL;
        t[0, k] := t[0, k] + [node];
      } else if msec < 0x10_0000 {
        var k := node.expire / 0x4000 % LEVEL;
        t[1, k] := t[1, k] + [node];
      } else if msec < 0x400_0000 {
        var k := node.expire / 0x10_0000 % LEVEL;
        t[2, k] := t[2, k] + [node];
      } else {
        var k := node.expire / 0x400_0000 % LEVEL;
        t[3, k] := t[3, k] + [node];
      }
    }

    /** Adds a timer `delay` ticks from now; a delay that is not positive is called at once. */
    method AddTimer(delay: int, id: int, ghost d: nat, ghost out: seq<TimerNode>) returns (r: TimerNode?)
      requires Inv(d, out) && d <= now + 1
      requires -MAX_INT - 1 <= delay <= MAX_INT
      modifies this`known, this`pending, this`atOnce, near, t
      ensures Inv(d, out)
      ensures delay <= 0 ==> r == null && atOnce == old(atOnce) + [id]
      ensures delay <= 0 ==> known == old(known) && pending == old(pending)
      ensures delay > 0 ==> r != null && fresh(r) && r.due == old(now) + delay && r.added == old(now) && r.id == id
      ensures delay > 0 ==> forall x | x in old(known) :: x.no < r.no
      ensures delay > 0 ==> known == old(known) + {r} && pending == old(pending) + {r} && atOnce == old(atOnce)
    {
      var expire := (delay + time) % WRAP;
      if delay <= 0 {
        atOnce := atOnce + [id];
        return null;
      }
      ghost var due := now + delay;
      WrappedExpiry(now, delay);
      ghost var no := NextNo(known);
      var node := new TimerNode(expire, id, now, due, no);
      Enter(node, d, out);
      return node;
    }

    /** Links a new timer into the wheel. */
    method Enter(node: TimerNode, ghost d: nat, ghost out: seq<TimerNode>)
      requires Inv(d, out) && d <= now + 1
      requires node !in known && node.added == now && TimerOk(node, now) && forall x | x in known :: x.no < node.no
      requires !node.cancel && node !in cancelled
      modifies this`known, this`pending, near, t
      ensures Inv(d, out)
      ensures known == old(known) + {node} && pending == old(pending) + {node}
    {
      ghost var was := s => if IsSlot(s) then old(List(s)) else [];
      assert Holds(was, pending, now);
      AddNode(node);
      LogEnter(now, known, pending, log, out, node);
      EnterHolds(was, pending, now, node);
      known, pending := known + {node}, pending + {node};
      ghost var n := now;
      AreHeld(s => Entered(was, node, n, s));
    }

    // ----- timer_shift

    /** Links the next timer of a list being moved; `base` is what the lists held before. */
    method Relink(current: seq<TimerNode>, n: nat, ghost base: Slot -> seq<TimerNode>)
      requires Shape() && time == now % WRAP && n < |current| && Movable(current[n], now)
      requires forall s | IsSlot(s) :: List(s) == base(s) + Landing(current[..n], now, s)
      modifies near, t
      ensures forall s | IsSlot(s) :: List(s) == base(s) + Landing(current[..n + 1], now, s)
    {
      AddNode(current[n]);
      forall s | IsSlot(s)
        ensures List(s) == base(s) + Landing(current[..n + 1], now, s)
      {
        LandingSnoc(current, n, now, s);
      }
    }

    /** Empties one list and places each of its timers again, in order. */
    method MoveList(level: nat, idx: nat)
      requires Shape() && time == now % WRAP && IsSlot(Level(level, idx))
      requires forall x | x in List(Level(level, idx)) :: Movable(x, now)
      modifies near, t
      ensures forall s | IsSlot(s) ::
        List(s) == (if s == Level(level, idx) then [] else old(List(s)))
                   + Landing(old(List(Level(level, idx))), now, s)
    {
      var current := t[level, idx];
      t[level, idx] := [];
      ghost var base := s => if s == Level(level, idx) || !IsSlot(s) then [] else old(List(s));
      var n := 0;
      while n < |current|
        invariant n <= |current|
        invariant forall s | IsSlot(s) :: List(s) == base(s) + Landing(current[..n], now, s)
      {
        assert Movable(current[n], now);
        Relink(current, n, base);
        n := n + 1;
      }
      assert current[..n] == current;
    }

    /** The list the clock selects is moved, no other. */
    method MoveDue()
      requires Shape() && time == now % WRAP
      requires forall s, x | IsSlot(s) && !Stuck(s) && x in List(s) :: Movable(x, now)
      modifies near, t
      ensures Drained(now).Drain? ==> IsSlot(Drained(now).slot) && forall s | IsSlot(s) ::
        List(s) == (if s == Drained(now).slot then [] else old(List(s)))
                   + Landing(old(List(Drained(now).slot)), now, s)
      ensures Drained(now).Nothing? ==> forall s | IsSlot(s) :: List(s) == old(List(s))
    {
      var mask, ct := NEAR, time;
      DrainedWraps(now);
      if ct == 0 {
        MoveList(3, 0);
      } else {
        var tm, i := ct / NEAR, 0;
        while ct % mask == 0
          invariant i < 4 && mask == Span(i) && tm == ct / Span(i)
          invariant i > 0 ==> ct % mask == 0
          invariant forall j | 0 <= j < i :: Digit(ct, j) == 0
          invariant forall s | IsSlot(s) :: List(s) == old(List(s))
          decreases 4 - i
        {
          var idx := tm % LEVEL;
          assert idx == Digit(ct, i);
          if idx != 0 {
            FirstDigit(ct, i);
            MoveList(i, idx);
            break;
          }
          NextLevel(ct, i);
          mask, tm, i := mask * LEVEL, tm / LEVEL, i + 1;
        }
      }
    }

    /** A timer outside the lists the clock never moves is not lost, so it can still be placed. */
    lemma AllMovable()
      requires Valid()
      ensures forall s, x | IsSlot(s) && !Stuck(s) && x in List(s) :: Movable(x, now + 1)
    {
      forall s, x | IsSlot(s) && !Stuck(s) && x in List(s)
        ensures Movable(x, now + 1)
      {
        Trajectory(x.added, x.due, now);
      }
    }

    lemma AreHeld(lists: Slot -> seq<TimerNode>)
      requires Shape() && Holds(lists, pending, now)
      requires forall s | IsSlot(s) :: List(s) == lists(s)
      ensures ListsOk()
    {
    }

    method MoveShifted(ghost was: Slot -> seq<TimerNode>, ghost n: nat)
      requires Shape() && time == now % WRAP && n == now
      requires Holds(s => Shifted(was, n, s), pending, n)
      requires forall s | IsSlot(s) :: List(s) == was(s)
      requires forall s, x | IsSlot(s) && !Stuck(s) && x in List(s) :: Movable(x, now)
      modifies near, t
      ensures ListsOk() && forall s | IsSlot(s) :: List(s) == Shifted(was, n, s)
    {
      MoveDue();
      AreHeld(s => Shifted(was, n, s));
    }

    /** The new clock and the lists after it; `was` is what they were. */
    method Advance(ghost was: Slot -> seq<TimerNode>)
      requires ListsOk() && time == now % WRAP && forall x | x in pending :: Lost(x) || now + 1 <= x.due
      requires forall s, x | IsSlot(s) && !Stuck(s) && x in List(s) :: Movable(x, now + 1)
      requires forall s | IsSlot(s) :: List(s) == was(s)
      modifies this`time, this`now, near, t
      ensures now == old(now) + 1 && time == now % WRAP && ListsOk()
      ensures forall s | IsSlot(s) :: List(s) == Shifted(was, now, s)
    {
      assert Holds(was, pending, now);
      ghost var n := now + 1;
      ShiftHolds(was, pending, n);
      WrappedExpiry(now, 1);
      time, now := (time + 1) % WRAP, n;
      MoveShifted(was, n);
    }

    /** Advances the clock by one tick and moves the list that is due to come down: it is emptied, and its
        timers are appended, in order, where they belong now. */
    method TimerShift(ghost was: Slot -> seq<TimerNode>)
      requires Valid() && forall s | IsSlot(s) :: List(s) == was(s)
      modifies this`time, this`now, near, t
      ensures now == old(now) + 1 && Inv(now, [])
      ensures forall s | IsSlot(s) :: List(s) == Shifted(was, now, s)
    {
      AllMovable();
      Aged(now, known, pending, log);
      Advance(was);
    }

    // ----- timer_execute

    /** The near list of the clock holds exactly the timers due now that are not lost. */
    lemma DueNow(d: nat, x: TimerNode)
      requires Inv(d, []) && now <= d && x in pending
      ensures x in near[now % NEAR] <==> !Lost(x) && x.due == now
    {
      FiresExactlyIff(x.added, x.due);
      Trajectory(x.added, x.due, now);
      assert x in List(Loc(x.added, x.due, now));
      if x in List(Near(now % NEAR)) {
        NearSlots(x.due, now);
      }
    }

    /** Callbacks and other threads at work while the lock is released. */
    method RunWindow(calls: seq<Call>, ghost d: nat, ghost out: seq<TimerNode>)
      requires Inv(d, out) && d <= now + 1 && IntDelays(calls)
      modifies this`known, this`pending, this`cancelled, this`atOnce, near, t, Targets(calls)`cancel
      ensures Inv(d, out) && Grew(old(known), old(pending), known, pending, now)
      ensures old(cancelled) <= cancelled
    {
      for i := 0 to |calls|
        invariant Inv(d, out) && Grew(old(known), old(pending), known, pending, now)
        invariant old(cancelled) <= cancelled
      {
        match calls[i]
        case Add(delay, id) =>
          var _ := AddTimer(delay, id, d, out);
        case Del(node) =>
          assert calls[i] in calls;
          DelTimer(node, d, out);
      }
    }

    /** Cancels a timer, at any moment and without the lock. */
    method DelTimer(node: TimerNode, ghost d: nat, ghost out: seq<TimerNode>)
      requires Inv(d, out)
      modifies this`cancelled, node`cancel
      ensures Inv(d, out) && node.cancel && cancelled == old(cancelled) + {node}
    {
      node.cancel := true;
      cancelled := cancelled + {node};
    }

    /** One node of `dispatch_list`, after whatever ran since the node before it. */
    method DispatchOne(temp: TimerNode, calls: seq<Call>, ghost out: seq<TimerNode>) returns (called: bool)
      requires Inv(now + 1, out) && out != [] && temp == out[0] && IntDelays(calls)
      modifies this`known, this`pending, this`cancelled, this`atOnce, this`log, near, t, Targets(calls)`cancel
      ensures Inv(now + 1, out[1..]) && Grew(old(known), old(pending), known, pending, now)
      ensures log == old(log) + [Firing(temp, now, called)]
      ensures old(cancelled) <= cancelled && called == (temp !in cancelled)
    {
      RunWindow(calls, now + 1, out);
      assert temp in known;
      called := !temp.cancel;
      LogDispatch(now, known, pending, log, out, called);
      DispatchTurn(log, out, Firing(temp, now, called), now + 1);
      log := log + [Firing(temp, now, called)];
    }

    /** One round of the loop of `dispatch_list`; `known0` to `dead` are what there was before the first. */
    method DispatchNext(current: seq<TimerNode>, n: nat, calls: seq<Call>, ghost known0: set<TimerNode>,
                        ghost pending0: set<TimerNode>, ghost log0: seq<Firing>, ghost dead: set<TimerNode>)
      requires n < |current| && Inv(now + 1, current[n..]) && IntDelays(calls)
      requires Grew(known0, pending0, known, pending, now)
      requires Dispatched(log0, log, current[..n], now, dead) && dead <= cancelled
      modifies this`known, this`pending, this`cancelled, this`atOnce, this`log, near, t, Targets(calls)`cancel
      ensures Inv(now + 1, current[n + 1..]) && Grew(known0, pending0, known, pending, now)
      ensures Dispatched(log0, log, current[..n + 1], now, dead) && dead <= cancelled
    {
      assert current[n..][1..] == current[n + 1..];
      ghost var known1, pending1, log1 := known, pending, log;
      var called := DispatchOne(current[n], calls, current[n..]);
      GrewMore(known0, pending0, known1, pending1, known, pending, now);
      DispatchedSnoc(log0, log1, current, n, now, dead, called);
    }

    /** The loop of `dispatch_list`. */
    method DispatchAll(current: seq<TimerNode>, script: seq<seq<Call>>)
      requires Inv(now + 1, current) && IntScript(script)
      modifies this`known, this`pending, this`cancelled, this`atOnce, this`log, near, t, ScriptTargets(script)`cancel
      ensures Inv(now + 1, []) && Grew(old(known), old(pending), known, pending, now)
      ensures Dispatched(old(log), log, current, now, old(cancelled)) && old(cancelled) <= cancelled
    {
      var n := 0;
      while n < |current|
        invariant n <= |current|
        invariant Inv(now + 1, current[n..]) && Grew(old(known), old(pending), known, pending, now)
        invariant Dispatched(old(log), log, current[..n], now, old(cancelled)) && old(cancelled) <= cancelled
      {
        DispatchNext(current, n, Window(script, n), old(known), old(pending), old(log), old(cancelled));
        n := n + 1;
      }
      assert current[..n] == current;
    }

    /** Dispatches the nodes of a detached list in order. Before each node and after the last one the
        callbacks run so far and other threads may use the wheel. */
    method DispatchList(current: seq<TimerNode>, script: seq<seq<Call>>)
      requires Inv(now + 1, current) && IntScript(script)
      modifies this`known, this`pending, this`cancelled, this`atOnce, this`log, near, t, ScriptTargets(script)`cancel
      ensures Inv(now + 1, []) && Grew(old(known), old(pending), known, pending, now)
      ensures Dispatched(old(log), log, current, now, old(cancelled)) && old(cancelled) <= cancelled
    {
      DispatchAll(current, script);
      ghost var known0, pending0 := known, pending;
      RunWindow(Window(script, |current|), now + 1, []);
      GrewMore(old(known), old(pending), known0, pending0, known, pending, now);
    }

    /** Takes one near list out of the wheel. */
    method TakeList(idx: nat) returns (current: seq<TimerNode>)
      requires ListsOk() && idx < NEAR
      modifies this`pending, near
      ensures ListsOk() && current == old(near[idx]) && near[idx] == []
      ensures pending == old(pending) - (set x | x in current)
    {
      current := near[idx];
      assert current == List(Near(idx));
      ghost var was := s => if IsSlot(s) then old(List(s)) else [];
      assert Holds(was, pending, now);
      DetachHolds(was, pending, now, Near(idx));
      near[idx] := [];
      pending := pending - (set x | x in current);
      AreHeld(s => Emptied(was, Near(idx), s));
    }

    /** Takes the near list of the clock out of the wheel. */
    method Detach(ghost d: nat) returns (current: seq<TimerNode>)
      requires Inv(d, []) && now <= d <= now + 1
      modifies this`pending, near
      ensures current == old(near[now % NEAR]) && near[now % NEAR] == []
      ensures Inv(now + 1, current)
      ensures pending == old(pending) - (set x | x in current)
      ensures forall x | x in pending :: Lost(x) || x.due > now
    {
      forall x | x in pending {
        DueNow(d, x);
      }
      var idx := time % NEAR;
      WrappedDigit(now, 0);
      assert near[idx] == List(Near(idx));
      LogDetach(now, known, pending, log, near[idx]);
      DetachTurn(log, near[idx], d, now + 1);
      current := TakeList(idx);
    }

    /** One pass of the loop of `timer_execute`. */
    method ExecutePass(script: seq<seq<Call>>, ghost d: nat)
      requires Inv(d, []) && now <= d <= now + 1 && IntScript(script)
      modifies this`known, this`pending, this`cancelled, this`atOnce, this`log, near, t, ScriptTargets(script)`cancel
      ensures Valid()
      ensures Executed(old(known), old(pending), old(log), known, pending, log, now, old(cancelled))
      ensures Dispatched(old(log), log, old(near[now % NEAR]), now, old(cancelled))
      ensures old(cancelled) <= cancelled
    {
      var current := Detach(d);
      DispatchList(current, script);
    }

    /** With nothing in the near list of the clock, everything due is dispatched already. */
    lemma NothingDue(d: nat)
      requires Inv(d, []) && now <= d <= now + 1
      ensures near[now % NEAR] == [] ==> Valid() && forall x | x in pending :: Lost(x) || x.due > now
      ensures d == now + 1 ==> near[now % NEAR] == []
    {
      forall x | x in pending {
        DueNow(d, x);
      }
      assert near[now % NEAR] == List(Near(now % NEAR));
      assert near[now % NEAR] != [] ==> near[now % NEAR][0] in near[now % NEAR];
    }

    /** Dispatches what the near list of the clock holds, until it is empty. */
    method TimerExecute(script: seq<seq<Call>>, ghost d: nat)
      requires Inv(d, []) && now <= d <= now + 1 && IntScript(script)
      modifies this`known, this`pending, this`cancelled, this`atOnce, this`log, near, t, ScriptTargets(script)`cancel
      ensures Valid()
      ensures Executed(old(known), old(pending), old(log), known, pending, log, now, old(cancelled))
      ensures Dispatched(old(log), log, old(near[now % NEAR]), now, old(cancelled)) && InTurn(log, [], now + 1)
      ensures old(cancelled) <= cancelled
      ensures d == now + 1 ==>
        known == old(known) && pending == old(pending) && log == old(log) && cancelled == old(cancelled)
    {
      var idx := time % NEAR;
      WrappedDigit(now, 0);
      NothingDue(d);
      ghost var e := d;
      while near[idx] != []
        invariant now <= e <= now + 1 && Inv(e, []) && old(cancelled) <= cancelled
        invariant near[idx] != [] ==> e == d == now && near[idx] == old(near[now % NEAR])
        invariant near[idx] != [] || d == now + 1 ==>
          known == old(known) && pending == old(pending) && log == old(log) && cancelled == old(cancelled)
        invariant near[idx] == [] ==>
          && Executed(old(known), old(pending), old(log), known, pending, log, now, old(cancelled))
          && Dispatched(old(log), log, old(near[now % NEAR]), now, old(cancelled))
        invariant d == now + 1 ==> near[idx] == []
        decreases near[idx] != []
      {
        ExecutePass(script, d);
        e := now + 1;
        NothingDue(e);
      }
      NothingDue(e);
    }

    // ----- timer_update and expire_timer

    /** One tick: exactly the pending timers whose due tick it is leave for the log, except those lost
        in slot 0 of a lower level. The first `timer_execute` never finds anything. */
    method TimerUpdate(first: seq<seq<Call>>, second: seq<seq<Call>>)
      requires Valid() && IntScript(first) && IntScript(second)
      modifies this, near, t, ScriptTargets(first)`cancel, ScriptTargets(second)`cancel
      ensures Valid() && now == old(now) + 1 && currentPoint == old(currentPoint)
      ensures Executed(old(known), old(pending), old(log), known, pending, log, now, old(cancelled))
      ensures InTurn(log, [], now + 1)
      ensures old(cancelled) <= cancelled
    {
      TimerExecute(first, now + 1);
      assert currentPoint == old(currentPoint) && now == old(now);
      label Before:
      ghost var was := s => if IsSlot(s) then old@Before(List(s)) else [];
      TimerShift(was);
      assert currentPoint == old(currentPoint);
      assert known == old(known) && pending == old(pending) && log == old(log) && cancelled == old(cancelled);
      TimerExecute(second, now);
    }

    /** The loop of `expire_timer`. */
    method Ticks(diff: nat, scripts: seq<(seq<seq<Call>>, seq<seq<Call>>)>)
      requires Valid() && forall p | p in scripts :: IntScript(p.0) && IntScript(p.1)
      modifies this, near, t, TickTargets(scripts)`cancel
      ensures Valid() && now == old(now) + diff && currentPoint == old(currentPoint)
      ensures Advanced(old(known), old(pending), old(log), old(now), known, pending, log, now)
    {
      AdvancedNone(now, known, pending, log);
      var i := 0;
      while i < diff
        invariant i <= diff && Valid() && now == old(now) + i && currentPoint == old(currentPoint)
        invariant Advanced(old(known), old(pending), old(log), old(now), known, pending, log, now)
      {
        var p := if i < |scripts| then scripts[i] else ([], []);
        TickTargetsOf(scripts, p);
        ghost var known0, pending0, log0, dead := known, pending, log, cancelled;
        TimerUpdate(p.0, p.1);
        AdvancedMore(old(known), old(pending), old(log), old(now), known0, pending0, log0,
                     known, pending, log, now, dead);
        i := i + 1;
      }
    }

    /** Catches up with the wall clock, one tick for each unit that has passed modulo 2^32. */
    method ExpireTimer(cp: nat, scripts: seq<(seq<seq<Call>>, seq<seq<Call>>)>)
      requires Valid() && forall p | p in scripts :: IntScript(p.0) && IntScript(p.1)
      modifies this, near, t, TickTargets(scripts)`cancel
      ensures Valid() && currentPoint == cp
      ensures now == old(now) + (cp - old(currentPoint)) % WRAP && InTurn(log, [], now + 1)
      ensures Advanced(old(known), old(pending), old(log), old(now), known, pending, log, now)
    {
      if cp == currentPoint {
        AdvancedNone(now, known, pending, log);
        return;
      }
      var diff := (cp - currentPoint) % WRAP;
      currentPoint := cp;
      Ticks(diff, scripts);
    }

    /** Every run: the log goes by ticks, and timers added at one tick for the same tick are dispatched in the
        order in which they were added, through all moves from list to list. */
    lemma LoggedInTurn(i: nat, j: nat)
      requires Valid() && i < j < |log|
      ensures log[i].at <= log[j].at && Earlier(log[i].node, log[j].node)
    {
      InTurnAt(log, [], now + 1, i, j);
    }

    /** Every run: a timer ever added is in exactly one list, once, and not dispatched while its due
        tick is ahead; from that tick on it is in no list and in the log exactly once, at that tick. A
        timer lost in slot 0 of a lower level stays where it was put and is never dispatched. */
    lemma Accounted(x: TimerNode)
      requires Valid() && x in known
      ensures Lost(x) || now < x.due ==>
        && (exists s :: IsSlot(s) && x in List(s))
        && (forall s, s' | IsSlot(s) && IsSlot(s') && x in List(s) && x in List(s') :: s == s')
        && (forall s, i, j | IsSlot(s) && 0 <= i < j < |List(s)| && List(s)[i] == x :: List(s)[j] != x)
        && (forall e | e in log :: e.node != x)
      ensures !Lost(x) && x.due <= now ==>
        && (forall s | IsSlot(s) :: x !in List(s))
        && (exists i :: 0 <= i < |log| && log[i].node == x && log[i].at == x.due)
        && (forall i, j | 0 <= i < j < |log| && log[i].node == x :: log[j].node != x)
      ensures Lost(x) ==> x in List(Place(x.due, x.added))
    {
      if Lost(x) || now < x.due {
        assert x in pending;
        assert x in List(Loc(x.added, x.due, now));
        Trajectory(x.added, x.due, now);
      } else {
        var e :| e in log && e.node == x;
      }
    }
  }

  /** The choice of the moved list depends on the clock modulo 2^32 only. */
  lemma DrainedWraps(now: nat)
    ensures Drained(now % WRAP) == Drained(now)
  {
    WrappedDigit(now, 0); WrappedDigit(now, 1); WrappedDigit(now, 2); WrappedDigit(now, 3);
  }

  /** With digit 0 at level `i` the search goes one level up, and there is one, as the clock is not 0. */
  lemma NextLevel(ct: nat, i: nat)
    requires i < 4 && 0 < ct < WRAP && ct % Span(i) == 0 && Digit(ct, i) == 0
    ensures i < 3 && Span(i) * LEVEL == Span(i + 1)
    ensures ct / Span(i) / LEVEL == ct / Span(i + 1) && ct % Span(i + 1) == 0
  {
    SpanStep(ct, i);
    TurnSplit(ct, i);
  }

  /** The lowest digit that is not 0 is where the search for the list stops. */
  lemma FirstDigit(ct: nat, i: nat)
    requires i < 4 && ct % Span(i) == 0 && Digit(ct, i) != 0
    requires 0 < ct < WRAP && forall j | 0 <= j < i :: Digit(ct, j) == 0
    ensures Drained(ct) == Drain(Level(i, Digit(ct, i)))
  {
    SpanIsDrained(ct, i);
  }
}
