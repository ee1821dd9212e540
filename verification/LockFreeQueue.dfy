/** The array queue shared by threads: every load, compare-and-swap, slot access and counter update is a step
    of its own, and the steps of the threads interleave in any way. The indices are unbounded here;
    `CalIndexIff` says what becomes of that in 64 bits. */
module LockFreeQueue {
  import opened Arith
  import opened Options

  /** Where a thread is in `push` or `pop`, with what it has loaded so far. */
  datatype Pc<T> =
    | Idle
    | PushR(item: T)
    | PushW(item: T, r: nat)
    | PushCas(item: T, r: nat, w: nat)
    | PushStore(item: T, ticket: nat)
    | PushCount(ticket: nat)
    | PopR
    | PopW(r: nat)
    | PopCas(r: nat, w: nat)
    | PopLoad(ticket: nat)
    | PopCount(ticket: nat)
  {
    predicate Push() {
      PushR? || PushW? || PushCas? || PushStore? || PushCount?
    }

    /** A push that has won its ticket and not yet counted. */
    predicate Pushed() {
      PushStore? || PushCount?
    }

    predicate Popped() {
      PopLoad? || PopCount?
    }
  }

  /** `items` and `taken` are the books: the items in the order of their tickets, and what pops have read. */
  datatype State<T> = State(read: nat, write: nat, count: int, data: seq<T>, pcs: map<nat, Pc<T>>,
                            items: seq<T>, taken: map<nat, T>)
  {
    function At(t: nat): Pc<T> {
      if t in pcs then pcs[t] else Idle
    }

    function Goto(t: nat, pc: Pc<T>): State<T> {
      State(read, write, count, data, pcs[t := pc], items, taken)
    }
  }

  datatype Action<T> = Push(thread: nat, item: T) | Pop(thread: nat) | Step(thread: nat)

  function Init<T>(q: nat, zero: T): State<T> {
    State(0, 0, 0, seq(q, _ => zero), map[], [], map[])
  }

  /** One action: a call of an idle thread, or the next step of a busy one. */
  function Next<T>(q: nat, s: State<T>, a: Action<T>): Option<State<T>>
    requires 0 < q == |s.data|
  {
    var pc := s.At(a.thread);
    match a
    case Push(t, item) => if pc.Idle? then Some(s.Goto(t, PushR(item))) else None
    case Pop(t) => if pc.Idle? then Some(s.Goto(t, PopR)) else None
    case Step(t) => if pc.Idle? then None else Some(if pc.Push() then PushNext(q, s, t, pc) else PopNext(q, s, t, pc))
  }

  function PushNext<T>(q: nat, s: State<T>, t: nat, pc: Pc<T>): State<T>
    requires 0 < q == |s.data| && pc.Push()
  {
    match pc
    case PushR(item) => s.Goto(t, PushW(item, s.read))
    case PushW(item, r) => s.Goto(t, if r % q == (s.write + 1) % q then Idle else PushCas(item, r, s.write))
    case PushCas(item, r, w) =>
      if s.write == w then
        State(s.read, w + 1, s.count, s.data, s.pcs[t := PushStore(item, w)], s.items + [item], s.taken)
      else s.Goto(t, PushR(item))
    case PushStore(item, k) =>
      State(s.read, s.write, s.count, s.data[k % q := item], s.pcs[t := PushCount(k)], s.items, s.taken)
    case PushCount(k) => State(s.read, s.write, s.count + 1, s.data, s.pcs[t := Idle], s.items, s.taken)
  }

  function PopNext<T>(q: nat, s: State<T>, t: nat, pc: Pc<T>): State<T>
    requires 0 < q == |s.data| && !pc.Idle? && !pc.Push()
  {
    match pc
    case PopR => s.Goto(t, PopW(s.read))
    case PopW(r) => s.Goto(t, if r % q == s.write % q then Idle else PopCas(r, s.write))
    case PopCas(r, w) =>
      if s.read == r then State(r + 1, s.write, s.count, s.data, s.pcs[t := PopLoad(r)], s.items, s.taken)
      else s.Goto(t, PopR)
    case PopLoad(k) =>
      State(s.read, s.write, s.count, s.data, s.pcs[t := PopCount(k)], s.items, s.taken[k := s.data[k % q]])
    case PopCount(k) => State(s.read, s.write, s.count - 1, s.data, s.pcs[t := Idle], s.items, s.taken)
  }

  /** A run: the actions in the order in which they happen. */
  function Run<T>(q: nat, s: State<T>, actions: seq<Action<T>>): (r: Option<State<T>>)
    requires 0 < q == |s.data|
    ensures r.Some? ==> |r.value.data| == q
    decreases |actions|
  {
    if actions == [] then Some(s) else
    var n := Next(q, s, actions[0]);
    if n.None? then None else Run(q, n.value, actions[1..])
  }

  // ----- What every interleaving keeps

  ghost function Pushing<T>(s: State<T>): set<nat> {
    set t | t in s.pcs && s.pcs[t].Pushed()
  }

  ghost function Popping<T>(s: State<T>): set<nat> {
    set t | t in s.pcs && s.pcs[t].Popped()
  }

  /** What a thread has loaded is from the past. */
  ghost predicate PcOk<T>(s: State<T>, pc: Pc<T>)
    requires |s.items| == s.write
  {
    match pc
    case PushW(_, r) => r <= s.read
    case PushCas(_, r, w) => r <= s.read && r <= w <= s.write
    case PushStore(item, k) => k < s.write && s.items[k] == item
    case PushCount(k) => k < s.write
    case PopW(r) => r <= s.read
    case PopCas(r, w) => r < w <= s.write && r <= s.read
    case PopLoad(k) => k < s.read
    case PopCount(k) => k < s.read
    case _ => true
  }

  ghost predicate PcsOk<T>(s: State<T>) {
    |s.items| == s.write && s.read <= s.write && forall t | t in s.pcs :: PcOk(s, s.pcs[t])
  }

  /** The tickets of unfinished pushes are distinct, and so are those of unfinished pops. */
  ghost predicate Tickets<T>(pcs: map<nat, Pc<T>>) {
    && (forall t, u | t in pcs && u in pcs && t != u && pcs[t].Pushed() && pcs[u].Pushed() ::
         pcs[t].ticket != pcs[u].ticket)
    && (forall t, u | t in pcs && u in pcs && t != u && pcs[t].Popped() && pcs[u].Popped() ::
         pcs[t].ticket != pcs[u].ticket)
  }

  /** The counter is the number of items but for the operations that have won a ticket and not yet
      counted. */
  ghost predicate Counted<T>(s: State<T>) {
    s.count + |Pushing(s)| - |Popping(s)| == s.write - s.read
  }

  ghost predicate Inv<T>(q: nat, s: State<T>) {
    0 < q == |s.data| && PcsOk(s) && Tickets(s.pcs) && Counted(s)
  }

  lemma OneMore(before: set<nat>, after: set<nat>, t: nat, here: bool)
    requires (forall u | u != t :: u in after <==> u in before) && (t in after <==> here)
    ensures |after| == |before| + (if here then 1 else 0) - (if t in before then 1 else 0)
  {
    var rest := before - {t};
    assert t in before ==> before == rest + {t};
    assert t !in before ==> before == rest;
    assert here ==> after == rest + {t};
    assert !here ==> after == rest;
  }

  /** Only one thread changes its place. */
  lemma Moved<T>(s: State<T>, n: State<T>, t: nat, pc: Pc<T>)
    requires n.pcs == s.pcs[t := pc]
    ensures |Pushing(n)| == |Pushing(s)| + (if pc.Pushed() then 1 else 0) - (if s.At(t).Pushed() then 1 else 0)
    ensures |Popping(n)| == |Popping(s)| + (if pc.Popped() then 1 else 0) - (if s.At(t).Popped() then 1 else 0)
  {
    PushingMoved(s, n, t, pc);
    PoppingMoved(s, n, t, pc);
  }

  lemma PushingMoved<T>(s: State<T>, n: State<T>, t: nat, pc: Pc<T>)
    requires n.pcs == s.pcs[t := pc]
    ensures |Pushing(n)| == |Pushing(s)| + (if pc.Pushed() then 1 else 0) - (if s.At(t).Pushed() then 1 else 0)
  {
    var before, after := Pushing(s), Pushing(n);
    forall u | u != t
      ensures u in after <==> u in before
    {
      assert u in n.pcs <==> u in s.pcs;
    }
    assert t in after <==> pc.Pushed();
    OneMore(before, after, t, pc.Pushed());
  }

  lemma PoppingMoved<T>(s: State<T>, n: State<T>, t: nat, pc: Pc<T>)
    requires n.pcs == s.pcs[t := pc]
    ensures |Popping(n)| == |Popping(s)| + (if pc.Popped() then 1 else 0) - (if s.At(t).Popped() then 1 else 0)
  {
    var before, after := Popping(s), Popping(n);
    forall u | u != t
      ensures u in after <==> u in before
    {
      assert u in n.pcs <==> u in s.pcs;
    }
    assert t in after <==> pc.Popped();
    OneMore(before, after, t, pc.Popped());
  }

  /** A ticket in use is one the thread had before or the next one. */
  lemma TicketsMoved<T>(s: State<T>, t: nat, pc: Pc<T>)
    requires PcsOk(s) && Tickets(s.pcs)
    requires pc.Pushed() ==> (s.At(t).Pushed() && s.At(t).ticket == pc.ticket) || pc.ticket == s.write
    requires pc.Popped() ==> (s.At(t).Popped() && s.At(t).ticket == pc.ticket) || pc.ticket == s.read
    ensures Tickets(s.pcs[t := pc])
  {
    assert forall u | u in s.pcs :: PcOk(s, s.pcs[u]);
  }

  /** What was loaded stays past as the indices grow. */
  lemma PcsMoved<T>(s: State<T>, n: State<T>, t: nat, pc: Pc<T>)
    requires PcsOk(s) && n.pcs == s.pcs[t := pc] && s.read <= n.read <= n.write && s.write <= n.write == |n.items|
    requires n.items[..s.write] == s.items && PcOk(n, pc)
    ensures PcsOk(n)
  {
    forall u | u in n.pcs
      ensures PcOk(n, n.pcs[u])
    {
      if u != t {
        assert PcOk(s, s.pcs[u]);
        assert forall k | 0 <= k < s.write :: n.items[k] == s.items[k];
      }
    }
  }

  lemma PushKeeps<T>(q: nat, s: State<T>, t: nat)
    requires Inv(q, s) && t in s.pcs && s.pcs[t].Push()
    ensures Inv(q, PushNext(q, s, t, s.pcs[t]))
  {
    var n := PushNext(q, s, t, s.pcs[t]);
    assert PcOk(s, s.pcs[t]);
    PcsMoved(s, n, t, n.pcs[t]);
    TicketsMoved(s, t, n.pcs[t]);
    Moved(s, n, t, n.pcs[t]);
  }

  lemma PopKeeps<T>(q: nat, s: State<T>, t: nat)
    requires Inv(q, s) && t in s.pcs && !s.pcs[t].Idle? && !s.pcs[t].Push()
    ensures Inv(q, PopNext(q, s, t, s.pcs[t]))
  {
    var n := PopNext(q, s, t, s.pcs[t]);
    assert PcOk(s, s.pcs[t]);
    PcsMoved(s, n, t, n.pcs[t]);
    TicketsMoved(s, t, n.pcs[t]);
    Moved(s, n, t, n.pcs[t]);
  }

  lemma NextKeeps<T>(q: nat, s: State<T>, a: Action<T>)
    requires Inv(q, s) && Next(q, s, a).Some?
    ensures Inv(q, Next(q, s, a).value)
  {
    var n, t := Next(q, s, a).value, a.thread;
    if a.Step? {
      if s.At(t).Push() {
        PushKeeps(q, s, t);
      } else {
        PopKeeps(q, s, t);
      }
    } else {
      PcsMoved(s, n, t, n.pcs[t]);
      TicketsMoved(s, t, n.pcs[t]);
      Moved(s, n, t, n.pcs[t]);
    }
  }

  /** Every interleaving of any number of pushes and pops, from the empty queue. */
  lemma {:induction false} EveryRun<T>(q: nat, s: State<T>, actions: seq<Action<T>>)
    requires Inv(q, s) && Run(q, s, actions).Some?
    ensures Inv(q, Run(q, s, actions).value)
    decreases |actions|
  {
    if actions != [] {
      NextKeeps(q, s, actions[0]);
      EveryRun(q, Next(q, s, actions[0]).value, actions[1..]);
    }
  }

  /** The tickets that pushes win in a run, in the order in which they win them. */
  function PushTickets<T>(q: nat, s: State<T>, actions: seq<Action<T>>): seq<nat>
    requires 0 < q == |s.data| && Run(q, s, actions).Some?
    decreases |actions|
  {
    if actions == [] then [] else
    var n, t := Next(q, s, actions[0]).value, actions[0].thread;
    (if s.At(t).PushCas? && n.At(t).PushStore? then [n.At(t).ticket] else []) + PushTickets(q, n, actions[1..])
  }

  /** Those that pops win. */
  function PopTickets<T>(q: nat, s: State<T>, actions: seq<Action<T>>): seq<nat>
    requires 0 < q == |s.data| && Run(q, s, actions).Some?
    decreases |actions|
  {
    if actions == [] then [] else
    var n, t := Next(q, s, actions[0]).value, actions[0].thread;
    (if s.At(t).PopCas? && n.At(t).PopLoad? then [n.At(t).ticket] else []) + PopTickets(q, n, actions[1..])
  }

  /** A step wins a ticket exactly if it moves an index, and the ticket is the index it moves. */
  lemma StepTickets<T>(q: nat, s: State<T>, a: Action<T>)
    requires 0 < q == |s.data| && Next(q, s, a).Some?
    ensures var n, t := Next(q, s, a).value, a.thread;
      && (s.At(t).PushCas? && n.At(t).PushStore? ==> n.At(t).ticket == s.write && n.write == s.write + 1)
      && (!(s.At(t).PushCas? && n.At(t).PushStore?) ==> n.write == s.write)
      && (s.At(t).PopCas? && n.At(t).PopLoad? ==> n.At(t).ticket == s.read && n.read == s.read + 1)
      && (!(s.At(t).PopCas? && n.At(t).PopLoad?) ==> n.read == s.read)
  {
  }

  /** In every interleaving the tickets won are consecutive numbers: no two pushes win the same, none is
      skipped, and so for pops. */
  lemma {:induction false} TicketsInOrder<T>(q: nat, s: State<T>, actions: seq<Action<T>>)
    requires 0 < q == |s.data| && Run(q, s, actions).Some?
    ensures s.write <= Run(q, s, actions).value.write && s.read <= Run(q, s, actions).value.read
    ensures PushTickets(q, s, actions) == Numbers(s.write, Run(q, s, actions).value.write)
    ensures PopTickets(q, s, actions) == Numbers(s.read, Run(q, s, actions).value.read)
    decreases |actions|
  {
    if actions != [] {
      var n := Next(q, s, actions[0]).value;
      StepTickets(q, s, actions[0]);
      TicketsInOrder(q, n, actions[1..]);
      assert Run(q, s, actions) == Run(q, n, actions[1..]);
    }
  }

  /** The numbers from `a` up to but not including `b`. */
  function Numbers(a: nat, b: nat): seq<nat>
    decreases b - a
  {
    if a >= b then [] else [a] + Numbers(a + 1, b)
  }

  lemma InitInv<T>(q: nat, zero: T)
    requires q > 0
    ensures Inv(q, Init(q, zero))
  {
  }

  // ----- How calls end

  /** How a push ends: with a ticket for its item, or refused; and a pop: with a ticket, or with nothing. */
  datatype PushEnd<T> = Pushed(item: T, ticket: nat) | Refused(item: T)

  datatype PopEnd = Got(ticket: nat) | Nothing

  /** The item of a push that has not ended yet. */
  function Wanted<T>(pc: Pc<T>): seq<T> {
    if pc.PushR? || pc.PushW? || pc.PushCas? then [pc.item] else []
  }

  function WantsPop<T>(pc: Pc<T>): nat {
    if pc.PopR? || pc.PopW? || pc.PopCas? then 1 else 0
  }

  /** Its test of the slots says that the queue is full, or empty. */
  predicate TestsFull<T>(q: nat, s: State<T>, pc: Pc<T>)
    requires q > 0
  {
    pc.PushW? && pc.r % q == (s.write + 1) % q
  }

  predicate TestsEmpty<T>(q: nat, s: State<T>, pc: Pc<T>)
    requires q > 0
  {
    pc.PopW? && pc.r % q == s.write % q
  }

  /** What one action of thread `t` ends: an item that has joined the books was pushed, one whose test says
      full was refused. */
  function PushEnds<T>(q: nat, s: State<T>, a: Action<T>, t: nat): seq<PushEnd<T>>
    requires 0 < q == |s.data| && Next(q, s, a).Some?
  {
    var n := Next(q, s, a).value;
    if a.thread != t then []
    else if |n.items| > |s.items| then [Pushed(n.items[|s.items|], s.write)]
    else if a.Step? && TestsFull(q, s, s.At(t)) then [Refused(s.At(t).item)]
    else []
  }

  function PopEnds<T>(q: nat, s: State<T>, a: Action<T>, t: nat): seq<PopEnd>
    requires 0 < q == |s.data| && Next(q, s, a).Some?
  {
    var n := Next(q, s, a).value;
    if a.thread != t then []
    else if n.read > s.read then [Got(s.read)]
    else if a.Step? && TestsEmpty(q, s, s.At(t)) then [Nothing]
    else []
  }

  /** The items thread `t` is called with in a run, how its pushes end, and their items. */
  function PushCalls<T>(actions: seq<Action<T>>, t: nat): seq<T> {
    if actions == [] then [] else CallOf(actions[0], t) + PushCalls(actions[1..], t)
  }

  function CallOf<T>(a: Action<T>, t: nat): seq<T> {
    if a.Push? && a.thread == t then [a.item] else []
  }

  function PushesEnded<T>(q: nat, s: State<T>, actions: seq<Action<T>>, t: nat): seq<PushEnd<T>>
    requires 0 < q == |s.data| && Run(q, s, actions).Some?
    decreases |actions|
  {
    if actions == [] then [] else
    PushEnds(q, s, actions[0], t) + PushesEnded(q, Next(q, s, actions[0]).value, actions[1..], t)
  }

  function ItemsOf<T>(ends: seq<PushEnd<T>>): seq<T> {
    if ends == [] then [] else [ends[0].item] + ItemsOf(ends[1..])
  }

  function PopCalls<T>(actions: seq<Action<T>>, t: nat): nat {
    if actions == [] then 0 else
    (if actions[0].Pop? && actions[0].thread == t then 1 else 0) + PopCalls(actions[1..], t)
  }

  function PopsEnded<T>(q: nat, s: State<T>, actions: seq<Action<T>>, t: nat): seq<PopEnd>
    requires 0 < q == |s.data| && Run(q, s, actions).Some?
    decreases |actions|
  {
    if actions == [] then [] else
    PopEnds(q, s, actions[0], t) + PopsEnded(q, Next(q, s, actions[0]).value, actions[1..], t)
  }

  lemma {:induction false} ItemsOfTwo<T>(a: seq<PushEnd<T>>, b: seq<PushEnd<T>>)
    ensures ItemsOf(a + b) == ItemsOf(a) + ItemsOf(b)
    decreases |a|
  {
    if a == [] {
      assert a + b == b;
      assert ItemsOf(b) == [] + ItemsOf(b);
    } else {
      ItemsOfTwo(a[1..], b);
      Uncons(a, b);
      Regroup([a[0].item], ItemsOf(a[1..]), ItemsOf(b));
    }
  }

  lemma Uncons<T>(a: seq<T>, b: seq<T>)
    requires a != []
    ensures (a + b)[0] == a[0] && (a + b)[1..] == a[1..] + b
  {
  }

  lemma Regroup<T>(a: seq<T>, b: seq<T>, c: seq<T>)
    ensures a + (b + c) == (a + b) + c
  {
  }

  /** No action drops the item of a push, or changes it: what it is called with, or had not ended yet, has
      ended or is still to end. */
  lemma PushCallStep<T>(q: nat, s: State<T>, a: Action<T>, t: nat)
    requires 0 < q == |s.data| && |s.items| == s.write && Next(q, s, a).Some?
    ensures var n := Next(q, s, a).value;
      && |n.items| == n.write
      && Wanted(s.At(t)) + CallOf(a, t) == ItemsOf(PushEnds(q, s, a, t)) + Wanted(n.At(t))
  {
  }

  /** So for pops. */
  lemma PopCallStep<T>(q: nat, s: State<T>, a: Action<T>, t: nat)
    requires 0 < q == |s.data| && Next(q, s, a).Some?
    ensures var n := Next(q, s, a).value;
      WantsPop(s.At(t)) + (if a.Pop? && a.thread == t then 1 else 0) == |PopEnds(q, s, a, t)| + WantsPop(n.At(t))
  {
  }

  lemma Linked<T>(w: seq<T>, call: seq<T>, calls: seq<T>, e: seq<T>, w': seq<T>, ends: seq<T>, last: seq<T>)
    requires w + call == e + w' && w' + calls == ends + last
    ensures w + (call + calls) == (e + ends) + last
  {
    calc {
      w + (call + calls);
      (w + call) + calls;
      (e + w') + calls;
      e + (w' + calls);
      e + (ends + last);
      (e + ends) + last;
    }
  }

  /** In every interleaving the pushes of every thread end in the order of its calls, each once: with a
      ticket, or because its test of the slots said full; only the last may be still under way. */
  lemma {:induction false} PushesEnd<T>(q: nat, s: State<T>, actions: seq<Action<T>>, t: nat)
    requires 0 < q == |s.data| && |s.items| == s.write && Run(q, s, actions).Some?
    ensures Wanted(s.At(t)) + PushCalls(actions, t)
         == ItemsOf(PushesEnded(q, s, actions, t)) + Wanted(Run(q, s, actions).value.At(t))
    decreases |actions|
  {
    if actions != [] {
      var n := Next(q, s, actions[0]).value;
      var now, later := PushEnds(q, s, actions[0], t), PushesEnded(q, n, actions[1..], t);
      PushCallStep(q, s, actions[0], t);
      PushesEnd(q, n, actions[1..], t);
      ItemsOfTwo(now, later);
      Linked(Wanted(s.At(t)), CallOf(actions[0], t), PushCalls(actions[1..], t), ItemsOf(now), Wanted(n.At(t)),
             ItemsOf(later), Wanted(Run(q, s, actions).value.At(t)));
    }
  }

  lemma {:induction false} PopsEnd<T>(q: nat, s: State<T>, actions: seq<Action<T>>, t: nat)
    requires 0 < q == |s.data| && Run(q, s, actions).Some?
    ensures WantsPop(s.At(t)) + PopCalls(actions, t)
         == |PopsEnded(q, s, actions, t)| + WantsPop(Run(q, s, actions).value.At(t))
    decreases |actions|
  {
    if actions != [] {
      PopCallStep(q, s, actions[0], t);
      PopsEnd(q, Next(q, s, actions[0]).value, actions[1..], t);
    }
  }

  /** The ticket of an ended push is that of its item for ever. */
  lemma {:induction false} PushedStays<T>(q: nat, s: State<T>, actions: seq<Action<T>>, t: nat, e: PushEnd<T>)
    requires 0 < q == |s.data| && |s.items| == s.write && Run(q, s, actions).Some?
    requires e in PushesEnded(q, s, actions, t) && e.Pushed?
    ensures var n := Run(q, s, actions).value; e.ticket < |n.items| && n.items[e.ticket] == e.item
    decreases |actions|
  {
    var n := Next(q, s, actions[0]).value;
    PushCallStep(q, s, actions[0], t);
    if e in PushEnds(q, s, actions[0], t) {
      ItemsStay(q, n, actions[1..], e.ticket);
    } else {
      PushedStays(q, n, actions[1..], t, e);
    }
  }

  lemma {:induction false} ItemsStay<T>(q: nat, s: State<T>, actions: seq<Action<T>>, k: nat)
    requires 0 < q == |s.data| && Run(q, s, actions).Some? && k < |s.items|
    ensures var n := Run(q, s, actions).value; k < |n.items| && n.items[k] == s.items[k]
    decreases |actions|
  {
    if actions != [] {
      ItemsStay(q, Next(q, s, actions[0]).value, actions[1..], k);
    }
  }

  /** A thread returns exactly when it has counted, or when its test says full or empty; it goes round again
      only if another thread has won a ticket since it loaded the index. */
  lemma ReturnIff<T>(q: nat, s: State<T>, t: nat)
    requires Inv(q, s) && !s.At(t).Idle?
    ensures var n, pc := Next(q, s, Step(t)).value, s.At(t);
      && (n.At(t).Idle? <==> pc.PushCount? || pc.PopCount? || TestsFull(q, s, pc) || TestsEmpty(q, s, pc))
      && (pc.PushCas? && !n.At(t).PushStore? ==> s.write > pc.w)
      && (pc.PopCas? && !n.At(t).PopLoad? ==> s.read > pc.r)
  {
    assert PcOk(s, s.pcs[t]);
  }

  /** How many steps a thread needs if the others rest. */
  function StepsLeft<T>(q: nat, s: State<T>, t: nat): nat
    requires q > 0
  {
    var pc := s.At(t);
    match pc
    case Idle => 0
    case PushR(_) => if s.read % q == (s.write + 1) % q then 2 else 5
    case PushW(_, _) => if TestsFull(q, s, pc) then 1 else 4
    case PushCas(_, _, w) => if s.write == w then 3 else if s.read % q == (s.write + 1) % q then 3 else 6
    case PushStore(_, _) => 2
    case PushCount(_) => 1
    case PopR => if s.read % q == s.write % q then 2 else 5
    case PopW(r) =>
      if TestsEmpty(q, s, pc) then 1 else if s.read == r then 4 else if s.read % q == s.write % q then 4 else 7
    case PopCas(r, _) => if s.read == r then 3 else if s.read % q == s.write % q then 3 else 6
    case PopLoad(_) => 2
    case PopCount(_) => 1
  }

  function Alone<T>(t: nat, k: nat): seq<Action<T>> {
    if k == 0 then [] else [Step(t)] + Alone(t, k - 1)
  }

  /** Left alone in any state, a push or pop returns within seven steps: no thread ever waits for another. */
  lemma {:induction false} ReturnsAlone<T>(q: nat, s: State<T>, t: nat)
    requires 0 < q == |s.data|
    ensures StepsLeft(q, s, t) <= 7
    ensures var n := Run(q, s, Alone(t, StepsLeft(q, s, t))); n.Some? && n.value.At(t).Idle?
    decreases StepsLeft(q, s, t)
  {
    var k := StepsLeft(q, s, t);
    if k > 0 {
      var n := Next(q, s, Step(t)).value;
      AloneStep(q, s, t);
      ReturnsAlone(q, n, t);
      assert Alone<T>(t, k)[0] == Step(t) && Alone<T>(t, k)[1..] == Alone(t, k - 1);
    }
  }

  lemma AloneStep<T>(q: nat, s: State<T>, t: nat)
    requires 0 < q == |s.data| && !s.At(t).Idle?
    ensures StepsLeft(q, Next(q, s, Step(t)).value, t) == StepsLeft(q, s, t) - 1
  {
  }

  /** The ticket of an ended pop has been read, or its thread is about to read it. */
  lemma {:induction false} GotIsRead<T>(q: nat, s: State<T>, actions: seq<Action<T>>, t: nat, k: nat)
    requires 0 < q == |s.data| && Run(q, s, actions).Some? && Got(k) in PopsEnded(q, s, actions, t)
    ensures var n := Run(q, s, actions).value; k in n.taken || n.At(t) == PopLoad(k)
    decreases |actions|
  {
    var n := Next(q, s, actions[0]).value;
    if Got(k) in PopEnds(q, s, actions[0], t) {
      ReadStays(q, n, actions[1..], t, k);
    } else {
      GotIsRead(q, n, actions[1..], t, k);
    }
  }

  lemma {:induction false} ReadStays<T>(q: nat, s: State<T>, actions: seq<Action<T>>, t: nat, k: nat)
    requires 0 < q == |s.data| && Run(q, s, actions).Some? && (k in s.taken || s.At(t) == PopLoad(k))
    ensures var n := Run(q, s, actions).value; k in n.taken || n.At(t) == PopLoad(k)
    decreases |actions|
  {
    if actions != [] {
      ReadStays(q, Next(q, s, actions[0]).value, actions[1..], t, k);
    }
  }

  // ----- One producer

  /** Only threads of `producers` call `push`. */
  ghost predicate PushesBy<T>(actions: seq<Action<T>>, producers: set<nat>) {
    forall i | 0 <= i < |actions| && actions[i].Push? :: actions[i].thread in producers
  }

  /** How many of the items are in their slots, if `p` is the only producer. */
  ghost function Stored<T>(s: State<T>, p: nat): int {
    if s.At(p).PushStore? then s.write - 1 else s.write
  }

  /** What the producer's test guarantees: it has room, as seen from a read index that can only grow. */
  ghost predicate RoomOk<T>(q: nat, s: State<T>, pc: Pc<T>) {
    match pc
    case PushW(_, r) => s.write - r <= q - 1
    case PushCas(_, r, w) => w == s.write && w + 1 - r <= q - 1
    case PushStore(_, k) => k == s.write - 1
    case _ => true
  }

  /** The slots hold the items of the last `q` tickets stored, and before the first turn is over what they
      were created with. */
  ghost predicate SlotsOk<T>(q: nat, s: State<T>, stored: int, zero: T)
    requires 0 < q == |s.data| && stored <= |s.items|
  {
    && (forall k: nat | k < stored <= k + q :: s.data[k % q] == s.items[k])
    && (forall j: nat | stored <= j < q :: s.data[j] == zero)
  }

  ghost predicate OneInv<T>(q: nat, s: State<T>, p: nat, zero: T) {
    && Inv(q, s) && s.write - s.read <= q - 1
    && (forall t | t in s.pcs && t != p :: !s.pcs[t].Push())
    && RoomOk(q, s, s.At(p)) && SlotsOk(q, s, Stored(s, p), zero)
  }

  lemma OnePush<T>(q: nat, s: State<T>, p: nat, zero: T)
    requires OneInv(q, s, p, zero) && s.At(p).Push()
    ensures OneInv(q, PushNext(q, s, p, s.At(p)), p, zero)
  {
    PushKeeps(q, s, p);
    PushRoom(q, s, p, zero);
    PushSlots(q, s, p, zero);
  }

  lemma PushRoom<T>(q: nat, s: State<T>, p: nat, zero: T)
    requires OneInv(q, s, p, zero) && s.At(p).Push()
    ensures var n := PushNext(q, s, p, s.At(p));
      n.write - n.read <= q - 1 && RoomOk(q, n, n.At(p)) && forall t | t in n.pcs && t != p :: !n.pcs[t].Push()
  {
    assert PcOk(s, s.pcs[p]);
    if s.At(p).PushW? {
      NotFull(q, s.At(p).r, s.write);
    }
  }

  lemma PushSlots<T>(q: nat, s: State<T>, p: nat, zero: T)
    requires OneInv(q, s, p, zero) && s.At(p).Push()
    ensures var n := PushNext(q, s, p, s.At(p));
      Stored(n, p) <= |n.items| && |n.data| == q && SlotsOk(q, n, Stored(n, p), zero)
  {
    assert PcOk(s, s.pcs[p]);
    if s.At(p).PushStore? {
      StoreSlot(q, s, PushNext(q, s, p, s.At(p)), s.write - 1, s.At(p).item, zero);
    }
  }

  /** Storing the next item. */
  lemma StoreSlot<T>(q: nat, s: State<T>, n: State<T>, w: nat, item: T, zero: T)
    requires 0 < q == |s.data| && w < |s.items| && s.items[w] == item && SlotsOk(q, s, w, zero)
    requires n.items == s.items && n.data == s.data[w % q := item]
    ensures SlotsOk(q, n, w + 1, zero)
  {
    forall k: nat | k < w + 1 <= k + q
      ensures n.data[k % q] == n.items[k]
    {
      if k < w {
        SlotsDiffer(q, k, w);
      }
    }
    forall j: nat | w + 1 <= j < q
      ensures n.data[j] == zero
    {
      DivModUnique(w, q, 0, w);
    }
  }

  /** A step of a pop, as the producer sees it. */
  lemma PopFrame<T>(q: nat, s: State<T>, t: nat)
    requires 0 < q == |s.data| && !s.At(t).Idle? && !s.At(t).Push()
    ensures var n := PopNext(q, s, t, s.At(t));
      && n.write == s.write && n.items == s.items && n.data == s.data && n.read >= s.read
      && n.pcs == s.pcs[t := n.At(t)] && !n.At(t).Push()
  {
  }

  lemma OneFrame<T>(q: nat, s: State<T>, n: State<T>, p: nat, zero: T, t: nat)
    requires OneInv(q, s, p, zero) && Inv(q, n) && !(t == p && s.At(p).Push())
    requires n.write == s.write && n.items == s.items && n.data == s.data && n.read >= s.read
    requires n.pcs == s.pcs[t := n.At(t)] && (!n.At(t).Push() || (t == p && n.At(t).PushR?))
    ensures OneInv(q, n, p, zero)
  {
    assert t != p ==> n.At(p) == s.At(p);
  }

  lemma OneNext<T>(q: nat, s: State<T>, p: nat, zero: T, a: Action<T>)
    requires OneInv(q, s, p, zero) && Next(q, s, a).Some? && (a.Push? ==> a.thread == p)
    ensures OneInv(q, Next(q, s, a).value, p, zero)
  {
    var n, t := Next(q, s, a).value, a.thread;
    if a.Step? && s.At(t).Push() {
      OnePush(q, s, p, zero);
    } else {
      NextKeeps(q, s, a);
      if a.Step? {
        PopFrame(q, s, t);
      }
      OneFrame(q, s, n, p, zero, t);
    }
  }

  /** With one producer and any number of consumers no interleaving holds more than one item less than
      there are slots. */
  lemma {:induction false} OneProducer<T>(q: nat, s: State<T>, p: nat, zero: T, actions: seq<Action<T>>)
    requires OneInv(q, s, p, zero) && PushesBy(actions, {p}) && Run(q, s, actions).Some?
    ensures OneInv(q, Run(q, s, actions).value, p, zero)
    decreases |actions|
  {
    if actions != [] {
      OneNext(q, s, p, zero, actions[0]);
      OneProducer(q, Next(q, s, actions[0]).value, p, zero, actions[1..]);
    }
  }

  /** So unread tickets have slots of their own, ... */
  lemma UnreadApart<T>(q: nat, s: State<T>, p: nat, zero: T, j: nat, k: nat)
    requires OneInv(q, s, p, zero) && s.read <= j < k < s.write
    ensures j % q != k % q
  {
    SlotsDiffer(q, j, k);
  }

  /** The last ticket below `stored` that has the given slot. */
  function LastTicket(q: nat, stored: nat, slot: nat): (last: Option<nat>)
    requires q > 0
    ensures last.Some? ==> last.value < stored && last.value % q == slot
    ensures last.Some? ==> forall j | last.value < j < stored :: j % q != slot
    ensures last.None? ==> forall j: nat | j < stored :: j % q != slot
  {
    if stored == 0 then None else if (stored - 1) % q == slot then Some(stored - 1) else LastTicket(q, stored - 1, slot)
  }

  /** ... and a pop reads the item of the last ticket stored in its slot, if there is one. */
  lemma PopReads<T>(q: nat, s: State<T>, p: nat, zero: T, c: nat)
    requires OneInv(q, s, p, zero) && s.At(c).PopLoad?
    ensures var k := s.At(c).ticket;
      Next(q, s, Step(c)).value.taken[k] ==
        match LastTicket(q, Stored(s, p), k % q) case Some(j) => s.items[j] case None => zero
  {
    assert PcOk(s, s.pcs[c]);
    SlotHolds(q, s, Stored(s, p), zero, s.At(c).ticket % q);
  }

  lemma SlotHolds<T>(q: nat, s: State<T>, stored: nat, zero: T, slot: nat)
    requires 0 < q == |s.data| && stored <= |s.items| && SlotsOk(q, s, stored, zero) && slot < q
    ensures s.data[slot] == match LastTicket(q, stored, slot) case Some(j) => s.items[j] case None => zero
  {
    var last := LastTicket(q, stored, slot);
    if last.Some? {
      TurnLater(q, last.value);
      assert stored <= last.value + q;
    } else {
      SmallSlot(q, slot);
      assert stored <= slot;
    }
  }

  lemma TurnLater(q: nat, k: nat)
    requires q > 0
    ensures (k + q) % q == k % q
  {
    DivModUnique(k + q, q, k / q + 1, k % q);
  }

  lemma SmallSlot(q: nat, k: nat)
    requires k < q
    ensures k % q == k
  {
    DivModUnique(k, q, 0, k);
  }

  /** That is its own item exactly if it is stored and the slot not used again. */
  lemma OwnItemIff(q: nat, stored: nat, k: nat)
    requires q > 0
    ensures LastTicket(q, stored, k % q) == Some(k) <==> k < stored <= k + q
  {
    var last := LastTicket(q, stored, k % q);
    TurnLater(q, k);
    if k < stored <= k + q && last != Some(k) {
      SlotsDiffer(q, k, last.value);
    }
  }

  /** The test of `push`: one more item than fits is a full turn away. */
  lemma NotFull(q: nat, r: nat, w: nat)
    requires 0 < q && r <= w && w - r <= q - 1
    ensures r % q == (w + 1) % q <==> w + 1 - r == q
  {
    if r % q == (w + 1) % q {
      SmallMultiple(q, (w + 1) / q - r / q - 1);
    } else if w + 1 - r == q {
      DivModUnique(w + 1, q, r / q + 1, r % q);
    }
  }

  /** Tickets less than a turn apart have different slots. */
  lemma SlotsDiffer(q: nat, j: nat, k: nat)
    requires 0 < q && j < k < j + q
    ensures j % q != k % q
  {
    if j % q == k % q {
      SmallMultiple(q, k / q - j / q);
    }
  }

  // ----- One producer and one consumer

  /** Only thread `c` calls `pop`. */
  ghost predicate Consumer<T>(s: State<T>, c: nat) {
    && (forall t | t in s.pcs && t != c :: s.pcs[t].Idle? || s.pcs[t].Push())
    && (s.At(c).PopLoad? ==> s.At(c).ticket == s.read - 1)
  }

  /** Only thread `c` calls `pop` in a run. */
  ghost predicate PopsBy<T>(actions: seq<Action<T>>, c: nat) {
    forall i | 0 <= i < |actions| && actions[i].Pop? :: actions[i].thread == c
  }

  lemma ConsumerNext<T>(q: nat, s: State<T>, c: nat, a: Action<T>)
    requires Inv(q, s) && Consumer(s, c) && Next(q, s, a).Some? && (a.Pop? ==> a.thread == c)
    ensures Consumer(Next(q, s, a).value, c)
  {
    var n, t := Next(q, s, a).value, a.thread;
    ReadMoves(q, s, a);
    forall u | u in n.pcs && u != c
      ensures n.pcs[u].Idle? || n.pcs[u].Push()
    {
      assert u != t ==> u in s.pcs && n.pcs[u] == s.pcs[u];
    }
  }

  /** Only a thread that is in `pop` moves the read index. */
  lemma ReadMoves<T>(q: nat, s: State<T>, a: Action<T>)
    requires 0 < q == |s.data| && Next(q, s, a).Some?
    ensures var n, t := Next(q, s, a).value, a.thread;
      && n.pcs == s.pcs[t := n.At(t)]
      && (n.At(t).PopLoad? ==> n.At(t).ticket == n.read - 1)
      && ((s.At(t).Idle? && !a.Pop?) || s.At(t).Push() ==> n.read == s.read && (n.At(t).Idle? || n.At(t).Push()))
  {
  }

  lemma {:induction false} ConsumerRun<T>(q: nat, s: State<T>, c: nat, actions: seq<Action<T>>, n: State<T>)
    requires Inv(q, s) && Consumer(s, c) && PopsBy(actions, c) && Run(q, s, actions) == Some(n)
    ensures Consumer(n, c)
    decreases |actions|
  {
    if actions != [] {
      NextKeeps(q, s, actions[0]);
      ConsumerNext(q, s, c, actions[0]);
      ConsumerRun(q, Next(q, s, actions[0]).value, c, actions[1..], n);
    }
  }

  /** What the only consumer reads: its item exactly if the only producer has stored it; else what the slot
      held a turn before. */
  lemma OnlyConsumerReads<T>(q: nat, s: State<T>, p: nat, c: nat, zero: T)
    requires OneInv(q, s, p, zero) && Consumer(s, c) && s.At(c).PopLoad?
    ensures var k := s.At(c).ticket;
      && k < |s.items|
      && Next(q, s, Step(c)).value.taken[k] ==
           if k < Stored(s, p) then s.items[k] else if k >= q then s.items[k - q] else zero
  {
    assert PcOk(s, s.pcs[c]);
    var k := s.At(c).ticket;
    if k >= Stored(s, p) {
      if k >= q {
        DivModUnique(k - q, q, k / q - 1, k % q);
      } else {
        DivModUnique(k, q, 0, k);
      }
    }
  }

  /** The tickets whose slots are read before their items are stored. */
  ghost function EarlyTickets<T>(q: nat, s: State<T>, actions: seq<Action<T>>, p: nat): set<nat>
    requires 0 < q == |s.data| && Run(q, s, actions).Some?
    decreases |actions|
  {
    if actions == [] then {} else
    Early(s, actions[0], p) + EarlyTickets(q, Next(q, s, actions[0]).value, actions[1..], p)
  }

  ghost function Early<T>(s: State<T>, a: Action<T>, p: nat): set<nat> {
    var pc := s.At(a.thread);
    if a.Step? && pc.PopLoad? && pc.ticket >= Stored(s, p) then {pc.ticket} else {}
  }

  /** How many tickets the only consumer has read. */
  ghost function Loaded<T>(s: State<T>, c: nat): int {
    if s.At(c).PopLoad? then s.read - 1 else s.read
  }

  /** What is read for a ticket. */
  ghost function Handed<T>(q: nat, items: seq<T>, zero: T, early: set<nat>, k: nat): T
    requires k < |items|
  {
    if k !in early then items[k] else if k >= q then items[k - q] else zero
  }

  ghost predicate Books<T>(q: nat, s: State<T>, c: nat, zero: T, early: set<nat>) {
    && Loaded(s, c) <= |s.items| && (forall k: nat :: k in s.taken <==> k < Loaded(s, c))
    && (forall k | k in early :: k < Loaded(s, c))
    && forall k | k in s.taken :: s.taken[k] == Handed(q, s.items, zero, early, k)
  }

  /** Reading a slot adds one ticket. */
  lemma BooksRead<T>(q: nat, s: State<T>, p: nat, c: nat, zero: T, early: set<nat>)
    requires OneInv(q, s, p, zero) && Consumer(s, c) && Books(q, s, c, zero, early) && s.At(c).PopLoad?
    ensures Books(q, PopNext(q, s, c, s.At(c)), c, zero, early + Early(s, Step(c), p))
  {
    var n := PopNext(q, s, c, s.At(c));
    OnlyConsumerReads(q, s, p, c, zero);
    BooksAdd(q, s, n, c, zero, early, Early(s, Step(c), p), n.taken[s.At(c).ticket]);
  }

  lemma BooksAdd<T>(q: nat, s: State<T>, n: State<T>, c: nat, zero: T, early: set<nat>, now: set<nat>, item: T)
    requires Books(q, s, c, zero, early) && n.items == s.items
    requires 0 <= Loaded(s, c) < Loaded(n, c) == Loaded(s, c) + 1 <= |s.items|
    requires n.taken == s.taken[Loaded(s, c) := item] && now <= {Loaded(s, c)}
    requires item == Handed(q, s.items, zero, now, Loaded(s, c))
    ensures Books(q, n, c, zero, early + now)
  {
  }

  /** The other steps leave what was read. */
  lemma BooksFrame<T>(q: nat, s: State<T>, n: State<T>, c: nat, zero: T, early: set<nat>)
    requires Books(q, s, c, zero, early) && n.taken == s.taken && Loaded(n, c) == Loaded(s, c)
    requires |s.items| <= |n.items| && n.items[..|s.items|] == s.items
    ensures Books(q, n, c, zero, early)
  {
    forall k | k in n.taken
      ensures n.taken[k] == Handed(q, n.items, zero, early, k)
    {
      assert forall j | 0 <= j < |s.items| :: n.items[j] == n.items[..|s.items|][j];
    }
  }

  lemma LoadedStays<T>(q: nat, s: State<T>, c: nat, a: Action<T>)
    requires 0 < q == |s.data| && Next(q, s, a).Some? && Consumer(s, c) && (a.Pop? ==> a.thread == c)
    requires !(a.Step? && s.At(a.thread).PopLoad?)
    ensures var n := Next(q, s, a).value;
      n.taken == s.taken && Loaded(n, c) == Loaded(s, c) && |s.items| <= |n.items| && n.items[..|s.items|] == s.items
  {
  }

  lemma BooksNext<T>(q: nat, s: State<T>, p: nat, c: nat, zero: T, early: set<nat>, a: Action<T>)
    requires OneInv(q, s, p, zero) && Consumer(s, c) && Books(q, s, c, zero, early)
    requires Next(q, s, a).Some? && (a.Push? ==> a.thread == p) && (a.Pop? ==> a.thread == c)
    ensures Books(q, Next(q, s, a).value, c, zero, early + Early(s, a, p))
  {
    if a.Step? && s.At(a.thread).PopLoad? {
      assert a.thread == c && a == Step(c);
      BooksRead(q, s, p, c, zero, early);
    } else {
      assert early + Early(s, a, p) == early;
      LoadedStays(q, s, c, a);
      BooksFrame(q, s, Next(q, s, a).value, c, zero, early);
    }
  }

  lemma {:induction false} BooksRun<T>(q: nat, s: State<T>, p: nat, c: nat, zero: T, early: set<nat>,
                                       actions: seq<Action<T>>,
                                       n: State<T>, all: set<nat>)
    requires OneInv(q, s, p, zero) && Consumer(s, c) && Books(q, s, c, zero, early)
    requires PushesBy(actions, {p}) && PopsBy(actions, c) && Run(q, s, actions) == Some(n)
    requires all == early + EarlyTickets(q, s, actions, p)
    ensures Books(q, n, c, zero, all)
    decreases |actions|
  {
    if actions == [] {
      assert early + {} == early;
    } else {
      var m, now := BooksFirst(q, s, p, c, zero, early, actions[0]);
      EarlyFirst(q, s, p, early, actions, n, all, m, now);
      BooksRun(q, m, p, c, zero, now, actions[1..], n, all);
    }
  }

  lemma BooksFirst<T>(q: nat, s: State<T>, p: nat, c: nat, zero: T, early: set<nat>, a: Action<T>)
    returns (m: State<T>, now: set<nat>)
    requires OneInv(q, s, p, zero) && Consumer(s, c) && Books(q, s, c, zero, early)
    requires Next(q, s, a).Some? && (a.Push? ==> a.thread == p) && (a.Pop? ==> a.thread == c)
    ensures Next(q, s, a) == Some(m) && now == early + Early(s, a, p)
    ensures OneInv(q, m, p, zero) && Consumer(m, c) && Books(q, m, c, zero, now)
  {
    m, now := Next(q, s, a).value, early + Early(s, a, p);
    OneNext(q, s, p, zero, a);
    ConsumerNext(q, s, c, a);
    BooksNext(q, s, p, c, zero, early, a);
  }

  lemma EarlyFirst<T>(q: nat, s: State<T>, p: nat, early: set<nat>, actions: seq<Action<T>>, n: State<T>,
                      all: set<nat>, m: State<T>, now: set<nat>)
    requires 0 < q == |s.data| == |m.data| && actions != []
    requires Run(q, s, actions) == Some(n) && Next(q, s, actions[0]) == Some(m)
    requires all == early + EarlyTickets(q, s, actions, p) && now == early + Early(s, actions[0], p)
    ensures Run(q, m, actions[1..]) == Some(n) && all == now + EarlyTickets(q, m, actions[1..], p)
  {
  }

  /** In every interleaving of one producer and one consumer the tickets are read in order, none twice and
      none skipped, and what is read is the item of the ticket, unless the read came before the store: then
      it is what the slot held a turn before. */
  lemma OneEach<T>(q: nat, zero: T, p: nat, c: nat, actions: seq<Action<T>>)
    requires q > 0 && PushesBy(actions, {p}) && PopsBy(actions, c) && Run(q, Init(q, zero), actions).Some?
    ensures var n, early := Run(q, Init(q, zero), actions).value, EarlyTickets(q, Init(q, zero), actions, p);
      && OneInv(q, n, p, zero) && Consumer(n, c)
      && (forall k: nat :: k in n.taken <==> k < Loaded(n, c))
      && forall k | k in n.taken :: n.taken[k] == Handed(q, n.items, zero, early, k)
  {
    InitInv(q, zero);
    var n, early := Run(q, Init(q, zero), actions).value, EarlyTickets(q, Init(q, zero), actions, p);
    OneProducer(q, Init(q, zero), p, zero, actions);
    ConsumerRun(q, Init(q, zero), c, actions, n);
    BooksRun(q, Init(q, zero), p, c, zero, {}, actions, n, early);
  }

  // ----- Two producers

  lemma {:induction false} RunAppend<T>(q: nat, s: State<T>, a: seq<Action<T>>, b: seq<Action<T>>)
    requires 0 < q == |s.data| && Run(q, s, a).Some?
    ensures Run(q, s, a + b) == Run(q, Run(q, s, a).value, b)
    decreases |a|
  {
    if a == [] {
      assert a + b == b;
    } else {
      assert (a + b)[0] == a[0] && (a + b)[1..] == a[1..] + b;
      RunAppend(q, Next(q, s, a[0]).value, a[1..], b);
    }
  }

  /** Some run of pushes by `producers` and of pops leads from one state to the other. */
  ghost predicate Leads<T(!new)>(q: nat, s: State<T>, n: State<T>, producers: set<nat>)
    requires 0 < q == |s.data|
  {
    exists actions :: PushesBy(actions, producers) && Run(q, s, actions) == Some(n)
  }

  lemma LeadsOn<T(!new)>(q: nat, s: State<T>, m: State<T>, n: State<T>, producers: set<nat>)
    requires 0 < q == |s.data| == |m.data| && Leads(q, s, m, producers) && Leads(q, m, n, producers)
    ensures Leads(q, s, n, producers)
  {
    var a :| PushesBy(a, producers) && Run(q, s, a) == Some(m);
    var b :| PushesBy(b, producers) && Run(q, m, b) == Some(n);
    RunAppend(q, s, a, b);
    assert PushesBy(a + b, producers);
  }

  lemma LeadsStep<T(!new)>(q: nat, s: State<T>, producers: set<nat>, a: Action<T>)
    requires 0 < q == |s.data| && Next(q, s, a).Some? && (a.Push? ==> a.thread in producers)
    ensures Leads(q, s, Next(q, s, a).value, producers)
  {
    var n := Next(q, s, a).value;
    assert Run(q, n, []) == Some(n);
    assert [a][1..] == [];
    assert PushesBy([a], producers) && Run(q, s, [a]) == Some(n);
  }

  /** One more step of a busy thread. */
  lemma StepOf<T(!new)>(q: nat, s: State<T>, m: State<T>, producers: set<nat>, t: nat) returns (n: State<T>)
    requires 0 < q == |s.data| == |m.data| && Leads(q, s, m, producers) && !m.At(t).Idle?
    ensures n == if m.At(t).Push() then PushNext(q, m, t, m.At(t)) else PopNext(q, m, t, m.At(t))
    ensures |n.data| == q && Leads(q, s, n, producers)
  {
    n := Next(q, m, Step(t)).value;
    LeadsStep(q, m, producers, Step(t));
    LeadsOn(q, s, m, n, producers);
  }

  /** Nothing but the place of thread `t` has changed, as far as the indices are concerned. */
  ghost predicate Beside<T>(s: State<T>, n: State<T>, t: nat) {
    |n.data| == |s.data| && forall u | u != t :: n.At(u) == s.At(u)
  }

  /** The first steps of a push load the read index. */
  lemma BeginPush<T(!new)>(q: nat, s: State<T>, producers: set<nat>, t: nat, item: T) returns (n: State<T>)
    requires 0 < q == |s.data| && s.At(t).Idle? && t in producers
    ensures Beside(s, n, t) && Leads(q, s, n, producers)
    ensures n.read == s.read && n.write == s.write && n.At(t) == PushW(item, s.read)
  {
    n := Next(q, s, Push(t, item)).value;
    LeadsStep(q, s, producers, Push(t, item));
    n := StepOf(q, s, n, producers, t);
  }

  /** The next steps win a ticket if the test lets them. */
  lemma WinPush<T(!new)>(q: nat, s: State<T>, producers: set<nat>, t: nat) returns (n: State<T>)
    requires 0 < q == |s.data| && s.At(t).PushW? && s.At(t).r % q != (s.write + 1) % q
    ensures Beside(s, n, t) && Leads(q, s, n, producers)
    ensures n.read == s.read && n.write == s.write + 1 && n.At(t).PushStore?
  {
    Stay(q, s, producers);
    var m := StepOf(q, s, s, producers, t);
    n := StepOf(q, s, m, producers, t);
  }

  lemma Stay<T(!new)>(q: nat, s: State<T>, producers: set<nat>)
    requires 0 < q == |s.data|
    ensures Leads(q, s, s, producers)
  {
    assert Run(q, s, []) == Some(s) && PushesBy<T>([], producers);
  }

  /** The last steps fill the slot and count. */
  lemma EndPush<T(!new)>(q: nat, s: State<T>, producers: set<nat>, t: nat) returns (n: State<T>)
    requires 0 < q == |s.data| && s.At(t).PushStore?
    ensures Beside(s, n, t) && Leads(q, s, n, producers)
    ensures n.read == s.read && n.write == s.write && n.At(t).Idle?
  {
    Stay(q, s, producers);
    var m := StepOf(q, s, s, producers, t);
    n := StepOf(q, s, m, producers, t);
  }

  /** A push that nobody disturbs. */
  lemma PushAlone<T(!new)>(q: nat, s: State<T>, producers: set<nat>, t: nat, item: T) returns (n: State<T>)
    requires 0 < q == |s.data| && s.At(t).Idle? && t in producers && s.read % q != (s.write + 1) % q
    ensures Beside(s, n, t) && Leads(q, s, n, producers)
    ensures n.read == s.read && n.write == s.write + 1 && n.At(t).Idle?
  {
    var m := BeginPush(q, s, producers, t, item);
    var k := WinPush(q, m, producers, t);
    n := EndPush(q, k, producers, t);
    LeadsOn(q, s, m, k, producers);
    LeadsOn(q, s, k, n, producers);
  }

  /** A pop that nobody disturbs. */
  lemma PopAlone<T(!new)>(q: nat, s: State<T>, producers: set<nat>, t: nat) returns (n: State<T>)
    requires 0 < q == |s.data| && s.At(t).Idle? && s.read % q != s.write % q
    ensures Beside(s, n, t) && Leads(q, s, n, producers)
    ensures n.read == s.read + 1 && n.write == s.write && n.At(t).Idle?
  {
    var m := BeginPop(q, s, producers, t);
    n := EndPop(q, m, producers, t);
    LeadsOn(q, s, m, n, producers);
  }

  lemma BeginPop<T(!new)>(q: nat, s: State<T>, producers: set<nat>, t: nat) returns (n: State<T>)
    requires 0 < q == |s.data| && s.At(t).Idle? && s.read % q != s.write % q
    ensures Beside(s, n, t) && Leads(q, s, n, producers)
    ensures n.read == s.read && n.write == s.write && n.At(t) == PopCas(s.read, s.write)
    ensures n.data == s.data && n.items == s.items && n.taken == s.taken
  {
    n := Next(q, s, Pop(t)).value;
    LeadsStep(q, s, producers, Pop(t));
    n := StepOf(q, s, n, producers, t);
    n := StepOf(q, s, n, producers, t);
  }

  lemma EndPop<T(!new)>(q: nat, s: State<T>, producers: set<nat>, t: nat) returns (n: State<T>)
    requires 0 < q == |s.data| && s.At(t) == PopCas(s.read, s.write)
    ensures Beside(s, n, t) && Leads(q, s, n, producers)
    ensures n.read == s.read + 1 && n.write == s.write && n.At(t).Idle?
  {
    Stay(q, s, producers);
    var m := StepOf(q, s, s, producers, t);
    var k := StepOf(q, s, m, producers, t);
    n := StepOf(q, s, k, producers, t);
  }

  /** Pushes by one thread alone, as many as fit. */
  lemma {:induction false} Fill<T(!new)>(q: nat, s: State<T>, producers: set<nat>, t: nat, item: T, k: nat)
    returns (n: State<T>)
    requires 0 < q == |s.data| && s.At(t).Idle? && t in producers && s.read == 0 && s.write + k <= q - 1
    ensures Beside(s, n, t) && Leads(q, s, n, producers)
    ensures n.read == s.read && n.write == s.write + k && n.At(t).Idle?
    decreases k
  {
    if k == 0 {
      Stay(q, s, producers);
      n := s;
    } else {
      DivModUnique(s.write + 1, q, 0, s.write + 1);
      var m := PushAlone(q, s, producers, t, item);
      n := Fill(q, m, producers, t, item, k - 1);
      LeadsOn(q, s, m, n, producers);
    }
  }

  /** The second producer `b` has loaded the read index 0; then `a` fills the queue and takes one out. */
  lemma Prelude<T(!new)>(q: nat, zero: T, producers: set<nat>, a: nat, b: nat, item: T) returns (n: State<T>)
    requires q >= 2 && a in producers && b in producers && a != b
    ensures |n.data| == q && Leads(q, Init(q, zero), n, producers)
    ensures n.read == 1 && n.write == q - 1 && n.At(a).Idle? && n.At(b) == PushW(item, 0)
  {
    var s := Init(q, zero);
    var s1 := BeginPush(q, s, producers, b, item);
    var s2 := Fill(q, s1, producers, a, item, q - 1);
    LeadsOn(q, s, s1, s2, producers);
    DivModUnique(q - 1, q, 0, q - 1);
    n := PopAlone(q, s2, producers, a);
    LeadsOn(q, s, s2, n, producers);
  }

  /** Then `a` pushes once more, and `b` tests the write index against the old read index and finds room:
      the queue is overfull, and its indices are those of an empty one. */
  lemma Overfull<T(!new)>(q: nat, zero: T, producers: set<nat>, a: nat, b: nat, item: T) returns (n: State<T>)
    requires q >= 2 && a in producers && b in producers && a != b
    ensures Leads(q, Init(q, zero), n, producers) && n.write - n.read == q && n.read % q == n.write % q
  {
    var s := Init(q, zero);
    var s3 := Prelude(q, zero, producers, a, b, item);
    Residues(q);
    var s4 := PushAlone(q, s3, producers, a, item);
    LeadsOn(q, s, s3, s4, producers);
    n := WinPush(q, s4, producers, b);
    LeadsOn(q, s, s4, n, producers);
  }

  lemma Residues(q: nat)
    requires q >= 2
    ensures 0 % q == 0 == q % q && 1 % q == 1 == (q + 1) % q
  {
    DivModUnique(1, q, 0, 1);
    DivModUnique(q, q, 1, 0);
    DivModUnique(q + 1, q, 1, 1);
  }

  /** The producer has its ticket and has not stored. */
  lemma EarlyPush<T(!new)>(q: nat, zero: T, item: T, p: nat, c: nat) returns (n: State<T>)
    requires q >= 2 && p != c
    ensures Leads(q, Init(q, zero), n, {p}) && n.data == Init(q, zero).data
    ensures n.items == [item] && n.read == 0 && n.write == 1
    ensures n.At(p) == PushStore(item, 0) && n.At(c).Idle? && n.taken == map[]
  {
    var s := Init(q, zero);
    Residues(q);
    n := Next(q, s, Push(p, item)).value;
    LeadsStep(q, s, {p}, Push(p, item));
    n := StepOf(q, s, n, {p}, p);
    n := StepOf(q, s, n, {p}, p);
    n := StepOf(q, s, n, {p}, p);
  }

  /** A pop can read its slot before the push has stored there, even with one producer and one consumer: the
      item handed out is what the slot was created with. */
  lemma EarlyRead<T(!new)>(q: nat, zero: T, item: T, p: nat, c: nat) returns (n: State<T>)
    requires q >= 2 && p != c
    ensures Leads(q, Init(q, zero), n, {p}) && n.items == [item] && n.taken == map[0 := zero]
  {
    var s := Init(q, zero);
    var m := EarlyPush(q, zero, item, p, c);
    Residues(q);
    n := BeginPop(q, m, {p}, c);
    LeadsOn(q, s, m, n, {p});
    n := ReadSlot(q, s, n, {p}, c);
  }

  /** The compare-and-swap of a pop and the access to its slot. */
  lemma ReadSlot<T(!new)>(q: nat, s: State<T>, m: State<T>, producers: set<nat>, c: nat) returns (n: State<T>)
    requires 0 < q == |s.data| == |m.data| && Leads(q, s, m, producers) && m.At(c).PopCas? && m.At(c).r == m.read
    ensures |n.data| == q && Leads(q, s, n, producers) && n.items == m.items
    ensures n.taken == m.taken[m.read := m.data[m.read % q]]
  {
    n := StepOf(q, s, m, producers, c);
    n := StepOf(q, s, n, producers, c);
  }

  /** A queue of one slot never takes anything. */
  ghost predicate NeverPushed<T>(s: State<T>) {
    s.write == 0 && forall t | t in s.pcs :: !s.pcs[t].PushCas? && !s.pcs[t].Pushed()
  }

  lemma {:induction false} OneSlot<T>(s: State<T>, actions: seq<Action<T>>)
    requires |s.data| == 1 && NeverPushed(s) && Run(1, s, actions).Some?
    ensures Run(1, s, actions).value.write == 0
    decreases |actions|
  {
    if actions != [] {
      NeverPushes(s, actions[0]);
      OneSlot(Next(1, s, actions[0]).value, actions[1..]);
    }
  }

  lemma NeverPushes<T>(s: State<T>, a: Action<T>)
    requires |s.data| == 1 && NeverPushed(s) && Next(1, s, a).Some?
    ensures NeverPushed(Next(1, s, a).value)
  {
    var t := a.thread;
    assert !s.At(t).PushCas? && !s.At(t).Pushed();
    NeverWins(s, a);
    var n := Next(1, s, a).value;
    forall u | u in n.pcs
      ensures !n.pcs[u].PushCas? && !n.pcs[u].Pushed()
    {
      assert u != t ==> u in s.pcs && n.pcs[u] == s.pcs[u];
    }
  }

  lemma NeverWins<T>(s: State<T>, a: Action<T>)
    requires |s.data| == 1 && Next(1, s, a).Some? && !s.At(a.thread).PushCas? && !s.At(a.thread).Pushed()
    ensures var n := Next(1, s, a).value;
      && n.write == s.write && n.pcs == s.pcs[a.thread := n.At(a.thread)]
      && !n.At(a.thread).PushCas? && !n.At(a.thread).Pushed()
  {
    assert forall x: nat :: x % 1 == 0;
  }

  /** The bound of one item less than there are slots holds in every interleaving exactly if there is at
      most one producer, or only one slot. */
  lemma OccupancyIff<T(!new)>(q: nat, producers: set<nat>, zero: T)
    requires q > 0
    ensures (forall n: State<T> | |n.data| == q && Leads(q, Init(q, zero), n, producers) :: n.write - n.read <= q - 1)
      <==> q == 1 || |producers| <= 1
  {
    var s := Init(q, zero);
    InitInv(q, zero);
    if q == 1 || |producers| <= 1 {
      forall n: State<T> | |n.data| == q && Leads(q, s, n, producers)
        ensures n.write - n.read <= q - 1
      {
        var actions :| PushesBy(actions, producers) && Run(q, s, actions) == Some(n);
        if q == 1 {
          OneSlot(s, actions);
        } else {
          var p := OnlyOne(producers);
          assert PushesBy(actions, {p});
          assert OneInv(q, s, p, zero);
          OneProducer(q, s, p, zero, actions);
        }
      }
    } else {
      var a :| a in producers;
      assert |producers - {a}| > 0;
      var b :| b in producers - {a};
      var n := Overfull(q, zero, producers, a, b, zero);
    }
  }

  lemma OnlyOne(producers: set<nat>) returns (p: nat)
    requires |producers| <= 1
    ensures producers <= {p}
  {
    if producers == {} {
      p := 0;
    } else {
      p :| p in producers;
      assert |producers - {p}| == 0;
    }
  }

  /** With one producer the tests mean what they are for: equal slots mean empty, and the next slot being the
      one to read means full. */
  lemma TestsMean<T>(q: nat, s: State<T>, p: nat, zero: T)
    requires OneInv(q, s, p, zero)
    ensures s.read % q == s.write % q <==> s.read == s.write
    ensures s.read % q == (s.write + 1) % q <==> s.write - s.read == q - 1
  {
    if s.read < s.write {
      SlotsDiffer(q, s.read, s.write);
    }
    NotFull(q, s.read, s.write);
  }

  // ----- 64-bit indices

  /** `calIndex` on unsigned 64-bit numbers, where the sum may wrap around. */
  function CalIndex(index: nat, q: nat): nat
    requires q > 0
  {
    (index + q) % WORD % q
  }

  /** The slot of every index, however often the index has wrapped around, is that of the unbounded one
      exactly if the number of slots divides the number of words. */
  lemma CalIndexIff(q: nat)
    requires 0 < q < WORD
    ensures (forall i: nat :: CalIndex(i % WORD, q) == i % q) <==> WORD % q == 0
  {
    if WORD % q == 0 {
      forall i: nat
        ensures CalIndex(i % WORD, q) == i % q
      {
        CalIndexRight(i, q);
      }
    } else {
      assert CalIndex(WORD % WORD, q) == q % q == 0;
      assert WORD % q != 0;
    }
  }

  lemma CalIndexRight(i: nat, q: nat)
    requires 0 < q < WORD && WORD % q == 0
    ensures CalIndex(i % WORD, q) == i % q
  {
    var f := WORD / q;
    assert WORD == q * f;
    var j := i % WORD;
    ModOfMod(i, q, f);
    ModOfMod(j + q, q, f);
    DivModUnique(j + q, q, j / q + 1, j % q);
  }

  // ----- All threads on 64-bit indices

  /** The state as it is in memory: indices, loaded indices, tickets and the counter modulo 2^64. */
  datatype Words<T> = Words(read: nat, write: nat, count: int, data: seq<T>, pcs: map<nat, Pc<T>>)
  {
    function At(t: nat): Pc<T> {
      if t in pcs then pcs[t] else Idle
    }

    function Goto(t: nat, pc: Pc<T>): Words<T> {
      Words(read, write, count, data, pcs[t := pc])
    }
  }

  function WrapPc<T>(pc: Pc<T>): Pc<T> {
    match pc
    case PushW(item, r) => PushW(item, r % WORD)
    case PushCas(item, r, w) => PushCas(item, r % WORD, w % WORD)
    case PushStore(item, k) => PushStore(item, k % WORD)
    case PushCount(k) => PushCount(k % WORD)
    case PopW(r) => PopW(r % WORD)
    case PopCas(r, w) => PopCas(r % WORD, w % WORD)
    case PopLoad(k) => PopLoad(k % WORD)
    case PopCount(k) => PopCount(k % WORD)
    case _ => pc
  }

  function Wrap<T>(s: State<T>): Words<T> {
    Words(s.read % WORD, s.write % WORD, s.count % WORD, s.data, WrapPcs(s.pcs))
  }

  function WrapPcs<T>(pcs: map<nat, Pc<T>>): map<nat, Pc<T>> {
    map t | t in pcs :: WrapPc(pcs[t])
  }

  function NextWords<T>(q: nat, s: Words<T>, a: Action<T>): Option<Words<T>>
    requires 0 < q == |s.data|
  {
    var pc := s.At(a.thread);
    match a
    case Push(t, item) => if pc.Idle? then Some(s.Goto(t, PushR(item))) else None
    case Pop(t) => if pc.Idle? then Some(s.Goto(t, PopR)) else None
    case Step(t) =>
      if pc.Idle? then None else Some(if pc.Push() then PushInWords(q, s, t, pc) else PopInWords(q, s, t, pc))
  }

  function PushInWords<T>(q: nat, s: Words<T>, t: nat, pc: Pc<T>): Words<T>
    requires 0 < q == |s.data| && pc.Push()
  {
    match pc
    case PushR(item) => s.Goto(t, PushW(item, s.read))
    case PushW(item, r) =>
      s.Goto(t, if CalIndex(r, q) == CalIndex((s.write + 1) % WORD, q) then Idle else PushCas(item, r, s.write))
    case PushCas(item, r, w) =>
      if s.write == w then Words(s.read, (w + 1) % WORD, s.count, s.data, s.pcs[t := PushStore(item, w)])
      else s.Goto(t, PushR(item))
    case PushStore(item, k) =>
      Words(s.read, s.write, s.count, s.data[CalIndex(k, q) := item], s.pcs[t := PushCount(k)])
    case PushCount(k) => Words(s.read, s.write, (s.count + 1) % WORD, s.data, s.pcs[t := Idle])
  }

  function PopInWords<T>(q: nat, s: Words<T>, t: nat, pc: Pc<T>): Words<T>
    requires 0 < q == |s.data| && !pc.Idle? && !pc.Push()
  {
    match pc
    case PopR => s.Goto(t, PopW(s.read))
    case PopW(r) => s.Goto(t, if CalIndex(r, q) == CalIndex(s.write, q) then Idle else PopCas(r, s.write))
    case PopCas(r, w) =>
      if s.read == r then Words((r + 1) % WORD, s.write, s.count, s.data, s.pcs[t := PopLoad(r)])
      else s.Goto(t, PopR)
    case PopLoad(k) => s.Goto(t, PopCount(k))
    case PopCount(k) => Words(s.read, s.write, (s.count - 1) % WORD, s.data, s.pcs[t := Idle])
  }

  /** A compare-and-swap that finds the index it has loaded, moved on by a multiple of 2^64. */
  predicate Stale<T>(s: State<T>, a: Action<T>) {
    var pc := s.At(a.thread);
    a.Step? && ((pc.PushCas? && pc.w != s.write && pc.w % WORD == s.write % WORD)
                || (pc.PopCas? && pc.r != s.read && pc.r % WORD == s.read % WORD))
  }

  lemma WrapAt<T>(s: State<T>, t: nat, pc: Pc<T>)
    ensures Wrap(s).At(t) == WrapPc(s.At(t))
    ensures WrapPcs(s.pcs[t := pc]) == WrapPcs(s.pcs)[t := WrapPc(pc)]
  {
  }

  lemma PushFollows<T>(q: nat, s: State<T>, t: nat, pc: Pc<T>)
    requires 0 < q == |s.data| && WORD % q == 0 && q < WORD && s.At(t) == pc && pc.Push()
    ensures PushInWords(q, Wrap(s), t, WrapPc(pc)) == Wrap(PushNext(q, s, t, pc)) <==> !Stale(s, Step(t))
  {
    WrapAt(s, t, PushNext(q, s, t, pc).At(t));
    match pc
    case PushR(_) =>
    case PushW(_, r) =>
      CalIndexRight(r, q);
      CalIndexRight(s.write + 1, q);
      WordNext(s.write);
    case PushCas(item, _, w) =>
      WordNext(w);
      assert PushInWords(q, Wrap(s), t, WrapPc(pc)).At(t).PushStore? <==> s.write % WORD == w % WORD;
    case PushStore(_, k) =>
      CalIndexRight(k, q);
    case PushCount(_) =>
      CountNext(s.count, 1);
  }

  lemma PopFollows<T>(q: nat, s: State<T>, t: nat, pc: Pc<T>)
    requires 0 < q == |s.data| && WORD % q == 0 && q < WORD && s.At(t) == pc && !pc.Push() && !pc.Idle?
    ensures PopInWords(q, Wrap(s), t, WrapPc(pc)) == Wrap(PopNext(q, s, t, pc)) <==> !Stale(s, Step(t))
  {
    WrapAt(s, t, PopNext(q, s, t, pc).At(t));
    match pc
    case PopR =>
    case PopW(r) =>
      CalIndexRight(r, q);
      CalIndexRight(s.write, q);
    case PopCas(r, _) =>
      WordNext(r);
      assert PopInWords(q, Wrap(s), t, WrapPc(pc)).At(t).PopLoad? <==> s.read % WORD == r % WORD;
    case PopLoad(_) =>
    case PopCount(_) =>
      CountNext(s.count, -1);
  }

  lemma CountNext(count: int, step: int)
    requires -1 <= step <= 1
    ensures (count % WORD + step) % WORD == (count + step) % WORD
  {
    var d, e := count / WORD, (count % WORD + step) % WORD;
    DivModUnique(count + step, WORD, d + (count % WORD + step) / WORD, e);
  }

  /** One step in memory is the step on unbounded indices, exactly unless such a compare-and-swap wins. */
  lemma WordsFollow<T>(q: nat, s: State<T>, a: Action<T>)
    requires 0 < q == |s.data| && WORD % q == 0 && q < WORD && Next(q, s, a).Some?
    ensures NextWords(q, Wrap(s), a) == Some(Wrap(Next(q, s, a).value)) <==> !Stale(s, a)
  {
    var t := a.thread;
    WrapAt(s, t, Next(q, s, a).value.At(t));
    if a.Step? {
      if s.At(t).Push() {
        PushFollows(q, s, t, s.At(t));
      } else {
        PopFollows(q, s, t, s.At(t));
      }
    }
  }

  function RunWords<T>(q: nat, s: Words<T>, actions: seq<Action<T>>): (r: Option<Words<T>>)
    requires 0 < q == |s.data|
    decreases |actions|
  {
    if actions == [] then Some(s) else
    var n := NextWords(q, s, actions[0]);
    if n.None? then None else RunWords(q, n.value, actions[1..])
  }

  /** A run without such a compare-and-swap. */
  ghost predicate NoneStale<T>(q: nat, s: State<T>, actions: seq<Action<T>>)
    requires 0 < q == |s.data| && Run(q, s, actions).Some?
    decreases |actions|
  {
    actions == [] || (!Stale(s, actions[0]) && NoneStale(q, Next(q, s, actions[0]).value, actions[1..]))
  }

  /** So what is proved of unbounded indices holds of the queue in memory in every interleaving in which no
      thread is held up between a load and its compare-and-swap for a multiple of 2^64 operations. */
  lemma {:induction false} WordsRun<T>(q: nat, s: State<T>, actions: seq<Action<T>>)
    requires 0 < q == |s.data| && WORD % q == 0 && q < WORD && Run(q, s, actions).Some? && NoneStale(q, s, actions)
    ensures RunWords(q, Wrap(s), actions) == Some(Wrap(Run(q, s, actions).value))
    decreases |actions|
  {
    if actions != [] {
      WordsFollow(q, s, actions[0]);
      WordsRun(q, Next(q, s, actions[0]).value, actions[1..]);
    }
  }

  // ----- One thread: the queue itself

  /** The slots from that of `first` on hold the contents, turning round at the end. */
  ghost predicate Ring<T>(data: seq<T>, first: nat, contents: seq<T>) {
    |contents| < |data| && forall k | 0 <= k < |contents| :: data[(first + k) % |data|] == contents[k]
  }

  lemma RingPush<T>(data: seq<T>, first: nat, contents: seq<T>, item: T)
    requires Ring(data, first, contents) && |contents| + 1 < |data|
    ensures Ring(data[(first + |contents|) % |data| := item], first, contents + [item])
  {
    var n := |contents|;
    var after, more := data[(first + n) % |data| := item], contents + [item];
    forall k | 0 <= k < |more|
      ensures after[(first + k) % |data|] == more[k]
    {
      if k < n {
        SlotsDiffer(|data|, first + k, first + n);
      }
    }
  }

  lemma RingPop<T>(data: seq<T>, first: nat, contents: seq<T>)
    requires Ring(data, first, contents) && contents != []
    ensures data[first % |data|] == contents[0] && Ring(data, first + 1, contents[1..])
  {
    assert first + 0 == first;
    forall k | 0 <= k < |contents| - 1
      ensures data[(first + 1 + k) % |data|] == contents[1..][k]
    {
      assert first + 1 + k == first + (k + 1);
    }
  }

  /** The class as it is, with 64-bit indices that wrap around, used by one thread at a time. */
  class Queue<T> {
    const size: nat
    const data: array<T>
    var count: nat
    var readIndex: nat
    var writeIndex: nat
    ghost var first: nat         // the read index, unbounded
    ghost var contents: seq<T>

    ghost predicate Valid()
      reads this, data
    {
      && 0 < size == data.Length < WORD && WORD % size == 0 && Ring(data[..], first, contents)
      && readIndex == first % WORD && writeIndex == (first + |contents|) % WORD && count == |contents|
    }

    constructor (size: nat, zero: T)
      requires 0 < size < WORD && WORD % size == 0
      ensures Valid() && contents == [] && this.size == size && fresh(data)
    {
      this.size := size;
      data := new T[size](_ => zero);
      count, readIndex, writeIndex := 0, 0, 0;
      first, contents := 0, [];
    }

    /** `CAS` on the write index. */
    method CasWrite(expected: nat, value: nat) returns (won: bool)
      modifies this`writeIndex
      ensures won == (old(writeIndex) == expected)
      ensures writeIndex == if won then value else old(writeIndex)
    {
      won := writeIndex == expected;
      if won {
        writeIndex := value;
      }
    }

    /** `CAS` on the read index. */
    method CasRead(expected: nat, value: nat) returns (won: bool)
      modifies this`readIndex
      ensures won == (old(readIndex) == expected)
      ensures readIndex == if won then value else old(readIndex)
    {
      won := readIndex == expected;
      if won {
        readIndex := value;
      }
    }

    /** The retry loop of `push`: a ticket, or nothing if the queue is full. */
    method WinWrite() returns (won: bool, w: nat)
      requires Valid()
      modifies this`writeIndex
      ensures won <==> |contents| < size - 1
      ensures w == old(writeIndex) && writeIndex == if won then (w + 1) % WORD else w
    {
      won, w := false, writeIndex;
      WriteTest(first, |contents|, size);
      while !won
        invariant w == old(writeIndex) && writeIndex == if won then (w + 1) % WORD else w
        invariant won ==> |contents| < size - 1
        decreases !won
      {
        var r := readIndex;
        w := writeIndex;
        if CalIndex(r, size) == CalIndex((w + 1) % WORD, size) {
          return;
        }
        won := CasWrite(w, (w + 1) % WORD);
      }
    }

    /** The slot access of `push`. */
    method Store(slot: nat, item: T)
      requires size == data.Length > 0 && Ring(data[..], first, contents) && |contents| + 1 < size
      requires slot == (first + |contents|) % size
      modifies data, this`contents
      ensures Ring(data[..], first, contents) && contents == old(contents) + [item]
    {
      RingPush(data[..], first, contents, item);
      data[slot] := item;
      contents := contents + [item];
      assert data[..] == old(data[..])[slot := item];
    }

    /** `push`. */
    method Push(item: T) returns (ok: bool)
      requires Valid()
      modifies this, data
      ensures Valid() && ok == (|old(contents)| < size - 1)
      ensures contents == if ok then old(contents) + [item] else old(contents)
    {
      var w;
      ok, w := WinWrite();
      if ok {
        Fill(w, item);
      }
    }

    /** The part of `push` behind the retry loop, with the ticket `w`. */
    method Fill(w: nat, item: T)
      requires 0 < size == data.Length < WORD && WORD % size == 0 && Ring(data[..], first, contents)
      requires |contents| + 1 < size && w == (first + |contents|) % WORD && writeIndex == (w + 1) % WORD
      requires readIndex == first % WORD && count == |contents|
      modifies data, this`contents, this`count
      ensures Valid() && contents == old(contents) + [item]
    {
      PushWords(first, |contents|, size);
      Store(CalIndex(w, size), item);
      count := (count + 1) % WORD;
    }

    /** The retry loop of `pop`. */
    method WinRead() returns (won: bool, r: nat)
      requires Valid()
      modifies this`readIndex
      ensures won <==> contents != []
      ensures r == old(readIndex) && readIndex == if won then (r + 1) % WORD else r
    {
      won, r := false, readIndex;
      ReadTest(first, |contents|, size);
      while !won
        invariant r == old(readIndex) && readIndex == if won then (r + 1) % WORD else r
        invariant won ==> contents != []
        decreases !won
      {
        r := readIndex;
        var w := writeIndex;
        if CalIndex(r, size) == CalIndex(w, size) {
          return;
        }
        won := CasRead(r, (r + 1) % WORD);
      }
    }

    /** `pop`. */
    method Pop() returns (item: Option<T>)
      requires Valid()
      modifies this
      ensures Valid()
      ensures item == if old(contents) == [] then None else Some(old(contents)[0])
      ensures contents == if old(contents) == [] then [] else old(contents)[1..]
    {
      var won, r := WinRead();
      if !won {
        return None;
      }
      PopWords(first, |contents|, size);
      RingPop(data[..], first, contents);
      item := Some(data[CalIndex(r, size)]);
      count := (count + WORD - 1) % WORD;
      first, contents := first + 1, contents[1..];
    }
  }

  /** The 64-bit numbers of a push. */
  lemma PushWords(first: nat, n: nat, q: nat)
    requires 0 < q < WORD && WORD % q == 0 && n + 1 < q
    ensures CalIndex((first + n) % WORD, q) == (first + n) % q
    ensures ((first + n) % WORD + 1) % WORD == (first + (n + 1)) % WORD && (n + 1) % WORD == n + 1
  {
    CalIndexRight(first + n, q);
    WordNext(first + n);
    DivModUnique(n + 1, WORD, 0, n + 1);
  }

  /** The 64-bit numbers of a pop. */
  lemma PopWords(first: nat, n: nat, q: nat)
    requires 0 < q < WORD && WORD % q == 0 && 0 < n < q
    ensures CalIndex(first % WORD, q) == first % q
    ensures (first % WORD + 1) % WORD == (first + 1) % WORD && (n + WORD - 1) % WORD == n - 1
  {
    CalIndexRight(first, q);
    WordNext(first);
    DivModUnique(n + WORD - 1, WORD, 1, n - 1);
  }

  lemma WordNext(i: nat)
    ensures (i % WORD + 1) % WORD == (i + 1) % WORD
  {
    var d, e := i / WORD, i % WORD;
    if e + 1 == WORD {
      DivModUnique(i + 1, WORD, d + 1, 0);
    } else {
      DivModUnique(i + 1, WORD, d, e + 1);
    }
  }

  /** The test of `push` on wrapped indices. */
  lemma WriteTest(first: nat, n: nat, q: nat)
    requires 0 < q < WORD && WORD % q == 0 && n <= q - 1
    ensures CalIndex(first % WORD, q) == CalIndex(((first + n) % WORD + 1) % WORD, q) <==> n == q - 1
  {
    CalIndexRight(first, q);
    CalIndexRight(first + n + 1, q);
    WordNext(first + n);
    NotFull(q, first, first + n);
  }

  /** The test of `pop` on wrapped indices. */
  lemma ReadTest(first: nat, n: nat, q: nat)
    requires 0 < q < WORD && WORD % q == 0 && n <= q - 1
    ensures CalIndex(first % WORD, q) == CalIndex((first + n) % WORD, q) <==> n == 0
  {
    CalIndexRight(first, q);
    CalIndexRight(first + n, q);
    if n > 0 {
      SlotsDiffer(q, first, first + n);
    }
  }
}
