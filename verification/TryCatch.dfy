/** Structured exceptions from macros: `Try`, `Catch`, `Finally`, `EndTry` expand to code over a stack of
    frames, a flag per block and non-local jumps. The meaning of a nest of such blocks is given
    structurally; the expansion is run on a machine; the two are proved to agree. */
module TryCatch {
  import opened Options

  type Exception = nat

  /** What a thread does that can be seen: its own actions, and the log line of a throw with no frame. */
  datatype Event = Did(action: nat) | Logged(e: Exception, cause: bool)

  type Trace = seq<Event>

  /** Source statements. `test` stands for a condition on what has happened so far. */
  datatype Stmt =
    | Skip
    | Act(action: nat)
    | Then(first: Stmt, second: Stmt)
    | If(test: Trace -> bool, thn: Stmt, els: Stmt)
    | Throw(e: Exception, cause: bool)
    | ReThrow                                          // of the exception in the frame of the innermost block
    | Try(body: Stmt, catches: Catches, final: Final)

  datatype Catches = NoCatch | Catch(e: Exception, handler: Stmt, more: Catches)

  datatype Final = NoFinally | Finally(block: Stmt)

  // ----- Meaning

  /** `Broken` is a `ReThrow` from a frame that no exception was stored in. */
  datatype Outcome = Normal | Raised(e: Exception) | Broken

  /** A throw: it is raised if some block is open, and otherwise only logged. */
  function Signal(e: Exception, cause: bool, guarded: bool, tr: Trace): (Trace, Outcome) {
    if guarded then (tr, Raised(e)) else (tr + [Logged(e, cause)], Normal)
  }

  /** Runs a statement after `tr`. `held` is the exception in the frame of the innermost block: that of its
      body, in the handlers and in the `Finally` block, handled or not. `guarded` says whether a `Try` is
      open around the statement. */
  function Exec(s: Stmt, held: Option<Exception>, guarded: bool, tr: Trace): (Trace, Outcome)
    decreases s, 1
  {
    match s
    case Skip => (tr, Normal)
    case Act(a) => (tr + [Did(a)], Normal)
    case Then(s1, s2) =>
      var (t1, o1) := Exec(s1, held, guarded, tr);
      if o1.Normal? then Exec(s2, held, guarded, t1) else (t1, o1)
    case If(test, s1, s2) => if test(tr) then Exec(s1, held, guarded, tr) else Exec(s2, held, guarded, tr)
    case Throw(e, cause) => Signal(e, cause, guarded, tr)
    case ReThrow => if held.Some? then Signal(held.value, false, guarded, tr) else (tr, Broken)
    case Try(body, catches, final) =>
      var (t1, o1) := Exec(body, None, true, tr);
      if o1.Normal? then ExecFinal(final, None, false, guarded, t1)
      else if o1.Broken? then (t1, o1)
      else
        match ExecCatches(catches, o1.e, guarded, t1)
        case None => ExecFinal(final, Some(o1.e), true, guarded, t1)
        case Some((t2, o2)) => if o2.Normal? then ExecFinal(final, Some(o1.e), false, guarded, t2) else (t2, o2)
  }

  /** The first matching handler, if there is one. */
  function ExecCatches(cs: Catches, e: Exception, guarded: bool, tr: Trace): Option<(Trace, Outcome)>
    decreases cs, 0
  {
    match cs
    case NoCatch => None
    case Catch(e', h, more) =>
      if e == e' then Some(Exec(h, Some(e), guarded, tr)) else ExecCatches(more, e, guarded, tr)
  }

  /** The `Finally` block and then the rethrow of what no handler took. */
  function ExecFinal(f: Final, held: Option<Exception>, pending: bool, guarded: bool, tr: Trace): (Trace, Outcome)
    decreases f, 0
  {
    var (t, o) := ExecBlock(f, held, guarded, tr);
    if o.Normal? && pending && held.Some? then Signal(held.value, false, guarded, t) else (t, o)
  }

  function ExecBlock(f: Final, held: Option<Exception>, guarded: bool, tr: Trace): (Trace, Outcome)
    decreases f, 0, 0
  {
    if f.Finally? then Exec(f.block, held, guarded, tr) else (tr, Normal)
  }

  /** A `ReThrow` in a handler finds an exception in its frame. */
  predicate WellFormed(s: Stmt, inHandler: bool)
    decreases s, 1
  {
    match s
    case Then(s1, s2) => WellFormed(s1, inHandler) && WellFormed(s2, inHandler)
    case If(_, s1, s2) => WellFormed(s1, inHandler) && WellFormed(s2, inHandler)
    case ReThrow => inHandler
    case Try(body, catches, final) =>
      WellFormed(body, false) && CatchesWellFormed(catches) && (final.Finally? ==> WellFormed(final.block, false))
    case _ => true
  }

  predicate CatchesWellFormed(cs: Catches)
    decreases cs, 0
  {
    cs.Catch? ==> WellFormed(cs.handler, true) && CatchesWellFormed(cs.more)
  }

  /** So a nest with `ReThrow` in handlers only is never broken. */
  lemma {:induction false} WellFormedHolds(s: Stmt, held: Option<Exception>, guarded: bool, tr: Trace)
    requires WellFormed(s, held.Some?)
    ensures !Exec(s, held, guarded, tr).1.Broken?
    decreases s, 1
  {
    match s
    case Then(s1, s2) =>
      WellFormedHolds(s1, held, guarded, tr);
      WellFormedHolds(s2, held, guarded, Exec(s1, held, guarded, tr).0);
    case If(test, s1, s2) =>
      WellFormedHolds(if test(tr) then s1 else s2, held, guarded, tr);
    case Try(body, catches, final) =>
      WellFormedHolds(body, None, true, tr);
      var (t1, o1) := Exec(body, None, true, tr);
      if o1.Normal? {
        WellFormedFinal(final, None, false, guarded, t1);
      } else {
        WellFormedCatches(catches, o1.e, guarded, t1);
        var r := ExecCatches(catches, o1.e, guarded, t1);
        WellFormedFinal(final, Some(o1.e), r.None?, guarded, if r.None? then t1 else r.value.0);
      }
    case _ =>
  }

  lemma {:induction false} WellFormedCatches(cs: Catches, e: Exception, guarded: bool, tr: Trace)
    requires CatchesWellFormed(cs)
    ensures var r := ExecCatches(cs, e, guarded, tr); r.Some? ==> !r.value.1.Broken?
    decreases cs, 0
  {
    if cs.Catch? {
      if cs.e == e {
        WellFormedHolds(cs.handler, Some(e), guarded, tr);
      } else {
        WellFormedCatches(cs.more, e, guarded, tr);
      }
    }
  }

  lemma WellFormedFinal(f: Final, held: Option<Exception>, pending: bool, guarded: bool, tr: Trace)
    requires f.Finally? ==> WellFormed(f.block, false)
    ensures !ExecFinal(f, held, pending, guarded, tr).1.Broken?
    decreases f, 0
  {
    if f.Finally? {
      Enough(f.block, false, held.Some?);
      WellFormedHolds(f.block, held, guarded, tr);
    }
  }

  lemma {:induction false} Enough(s: Stmt, inHandler: bool, more: bool)
    requires WellFormed(s, inHandler) && (inHandler ==> more)
    ensures WellFormed(s, more)
    decreases s
  {
    match s
    case Then(s1, s2) =>
      Enough(s1, inHandler, more);
      Enough(s2, inHandler, more);
    case If(_, s1, s2) =>
      Enough(s1, inHandler, more);
      Enough(s2, inHandler, more);
    case _ =>
  }

  /** With no block open nothing is ever raised: the program goes on after each throw. */
  lemma {:induction false} UnguardedIsNormal(s: Stmt, held: Option<Exception>, tr: Trace)
    ensures !Exec(s, held, false, tr).1.Raised?
    decreases s, 1
  {
    match s
    case Then(s1, s2) =>
      UnguardedIsNormal(s1, held, tr);
      UnguardedIsNormal(s2, held, Exec(s1, held, false, tr).0);
    case If(test, s1, s2) =>
      UnguardedIsNormal(if test(tr) then s1 else s2, held, tr);
    case Try(body, catches, final) =>
      var (t1, o1) := Exec(body, None, true, tr);
      if o1.Normal? {
        UnguardedFinal(final, None, false, t1);
      } else if o1.Raised? {
        UnguardedCatches(catches, o1.e, t1);
        var r := ExecCatches(catches, o1.e, false, t1);
        UnguardedFinal(final, Some(o1.e), r.None?, if r.None? then t1 else r.value.0);
      }
    case _ =>
  }

  lemma {:induction false} UnguardedCatches(cs: Catches, e: Exception, tr: Trace)
    ensures var r := ExecCatches(cs, e, false, tr); r.Some? ==> !r.value.1.Raised?
    decreases cs, 0
  {
    if cs.Catch? {
      if cs.e == e {
        UnguardedIsNormal(cs.handler, Some(e), tr);
      } else {
        UnguardedCatches(cs.more, e, tr);
      }
    }
  }

  lemma UnguardedFinal(f: Final, held: Option<Exception>, pending: bool, tr: Trace)
    ensures !ExecFinal(f, held, pending, false, tr).1.Raised?
    decreases f, 0
  {
    if f.Finally? {
      UnguardedIsNormal(f.block, held, tr);
    }
  }

  // ----- The code the macros expand to

  /** The values of `Exception_flag`. */
  datatype Flag = Entered | Thrown | Handled | Finalized

  datatype Condition = Test(test: Trace -> bool) | FlagIs(flag: Flag) | FrameHolds(e: Exception)

  /** The C statements the macros are made of. */
  datatype Code =
    | Empty
    | DoAct(action: nat)
    | Seq(first: Code, second: Code)
    | Branch(cond: Condition, yes: Code, no: Code)
    | CallThrow(e: Exception, cause: bool)
    | CallReThrow                            // throws what the innermost block's frame holds
    | OpenBlock                              // do { ... frame.prev = top; top = &frame;
    | SetJmp                                 // Exception_flag = setjmp(frame.env);
    | PopStack                               // top = top->prev;
    | SetFlag(flag: Flag)                    // Exception_flag = ...;
    | CloseBlock                             // } while (0)

  function PopIfEntered(): Code {
    Branch(FlagIs(Entered), PopStack, Empty)
  }

  /** `if (Exception_flag == ExceptionThrown) ReThrow; } while (0)` */
  function EndTry(): Code {
    Seq(Branch(FlagIs(Thrown), CallReThrow, Empty), CloseBlock)
  }

  function Expand(s: Stmt): Code
    decreases s, 1
  {
    match s
    case Skip => Empty
    case Act(a) => DoAct(a)
    case Then(s1, s2) => Seq(Expand(s1), Expand(s2))
    case If(test, s1, s2) => Branch(Test(test), Expand(s1), Expand(s2))
    case Throw(e, cause) => CallThrow(e, cause)
    case ReThrow => CallReThrow
    case Try(body, catches, final) =>
      Seq(OpenBlock, Seq(SetJmp,
        Seq(Branch(FlagIs(Entered), Seq(Expand(body), PopIfEntered()), ExpandCatches(catches)),
          Seq(ExpandFinal(final), EndTry()))))
  }

  function ExpandCatches(cs: Catches): Code
    decreases cs, 0
  {
    match cs
    case NoCatch => Empty
    case Catch(e, h, more) =>
      Branch(FrameHolds(e), Seq(SetFlag(Handled), Seq(Expand(h), PopIfEntered())), ExpandCatches(more))
  }

  function ExpandFinal(f: Final): Code
    decreases f, 0
  {
    match f
    case NoFinally => Empty
    case Finally(s) => Seq(Branch(FlagIs(Entered), SetFlag(Finalized), Empty), Seq(Expand(s), PopIfEntered()))
  }

  // ----- The machine

  /** What is left to run; `setjmp` saves it in the frame. */
  datatype Rest = Done | Do(code: Code, rest: Rest)

  /** The locals of an open block: its flag and its frame. `pops` counts how often the frame was popped. */
  datatype Block = Block(flag: Flag, exception: Option<Exception>, prev: Option<nat>, env: Option<Rest>, pops: nat)

  /** `blocks` are the blocks the thread is in, outermost first; `top` is the thread-local frame pointer,
      as an index into them. `Fault` is a use of a frame that is not there or holds no exception, or
      leaving a block whose frame was not popped exactly once. */
  datatype State = State(rest: Rest, blocks: seq<Block>, top: Option<nat>, trace: Trace) | Fault

  function Last(blocks: seq<Block>): Block
    requires blocks != []
  {
    blocks[|blocks| - 1]
  }

  /** The frames from `k` on were popped once each. */
  predicate Once(blocks: seq<Block>, k: nat) {
    forall i | k <= i < |blocks| :: blocks[i].pops == 1
  }

  /** `ntyExceptionThrow`: with a frame, store the exception in it, pop it and jump to it, which leaves
      every block inside; without one, log and return to `rest`. */
  function DoThrow(st: State, rest: Rest, e: Exception, cause: bool): State
    requires st.State?
  {
    match st.top
    case None => st.(rest := rest, trace := st.trace + [Logged(e, cause)])
    case Some(k) =>
      if k >= |st.blocks| || st.blocks[k].env.None? || !Once(st.blocks, k + 1) then Fault
      else Landed(st.blocks, k, e, st.trace)
  }

  /** The state after a jump to block `k`: its `setjmp` returns once more. */
  function Landed(blocks: seq<Block>, k: nat, e: Exception, tr: Trace): State
    requires k < |blocks| && blocks[k].env.Some?
  {
    var b := blocks[k];
    State(b.env.value, blocks[..k] + [Caught(b, e)], b.prev, tr)
  }

  function Caught(b: Block, e: Exception): Block {
    b.(flag := Thrown, exception := Some(e), pops := b.pops + 1)
  }

  /** The conditions; those on a flag or a frame need an open block. */
  predicate Holds(c: Condition, st: State)
    requires st.State? && (c.Test? || st.blocks != [])
  {
    match c
    case Test(test) => test(st.trace)
    case FlagIs(f) => Last(st.blocks).flag == f
    case FrameHolds(e) => Last(st.blocks).exception == Some(e)
  }

  function Step(st: State): State {
    if st.Fault? || st.rest.Done? then st
    else
      var c, k := st.rest.code, st.rest.rest;
      match c
      case Empty => st.(rest := k)
      case DoAct(a) => st.(rest := k, trace := st.trace + [Did(a)])
      case Seq(c1, c2) => st.(rest := Do(c1, Do(c2, k)))
      case Branch(cond, c1, c2) =>
        if !cond.Test? && st.blocks == [] then Fault
        else st.(rest := Do(if Holds(cond, st) then c1 else c2, k))
      case CallThrow(e, cause) => DoThrow(st, k, e, cause)
      case OpenBlock => State(k, st.blocks + [Block(Entered, None, st.top, None, 0)], Some(|st.blocks|), st.trace)
      case _ => if st.blocks == [] then Fault else StepInBlock(c, k, st)
  }

  /** The statements that use the locals of the innermost block. */
  function StepInBlock(c: Code, k: Rest, st: State): State
    requires st.State? && st.blocks != []
  {
    var b, outer := Last(st.blocks), st.blocks[..|st.blocks| - 1];
    match c
    case CallReThrow => if b.exception.None? then Fault else DoThrow(st, k, b.exception.value, false)
    case SetJmp => st.(rest := k, blocks := outer + [b.(flag := Entered, env := Some(k))])
    case PopStack => if st.top.None? || st.top.value >= |st.blocks| then Fault else Popped(st, k, st.top.value)
    case SetFlag(f) => st.(rest := k, blocks := outer + [b.(flag := f)])
    case CloseBlock => if b.pops != 1 then Fault else st.(rest := k, blocks := outer)
    case _ => Fault
  }

  /** `ntyExceptionPopStack` with the frame `t` on top. */
  function Popped(st: State, k: Rest, t: nat): State
    requires st.State? && t < |st.blocks|
  {
    var b := st.blocks[t];
    st.(rest := k, blocks := st.blocks[t := b.(pops := b.pops + 1)], top := b.prev)
  }

  function Run(st: State, n: nat): State
    decreases n
  {
    if n == 0 then st else Run(Step(st), n - 1)
  }

  lemma {:induction false} RunAdd(st: State, m: nat, n: nat)
    ensures Run(Run(st, m), n) == Run(st, m + n)
    decreases m
  {
    if m > 0 {
      RunAdd(Step(st), m - 1, n);
    }
  }

  lemma {:induction false} FinalStays(st: State, n: nat)
    requires Step(st) == st
    ensures Run(st, n) == st
    decreases n
  {
    if n > 0 {
      FinalStays(st, n - 1);
    }
  }

  /** One step, and then those of a known run. */
  lemma After(s0: State, s1: State, n: nat)
    requires Step(s0) == s1
    ensures Run(s0, n + 1) == Run(s1, n)
  {
  }

  /** Two, three and four steps. */
  lemma Two(s0: State, s1: State, s2: State)
    requires Step(s0) == s1 && Step(s1) == s2
    ensures Run(s0, 2) == s2
  {
    After(s0, s1, 1);
    After(s1, s2, 0);
  }

  lemma Four(s0: State, s1: State, s2: State, s3: State, s4: State)
    requires Step(s0) == s1 && Step(s1) == s2 && Step(s2) == s3 && Step(s3) == s4
    ensures Run(s0, 4) == s4
  {
    Two(s0, s1, s2);
    Two(s2, s3, s4);
    RunAdd(s0, 2, 2);
  }

  // ----- Simulation

  /** The frames linked from `top` have not been popped and their `setjmp` has been reached; all others
      have been popped once. */
  predicate Ready(blocks: seq<Block>, top: Option<nat>)
    decreases |blocks|
  {
    if blocks == [] then top.None?
    else
      var b, outer := Last(blocks), blocks[..|blocks| - 1];
      if top == Some(|outer|) then b.pops == 0 && b.env.Some? && Ready(outer, b.prev)
      else b.pops == 1 && Ready(outer, top)
  }

  lemma {:induction false} ReadyTop(blocks: seq<Block>, top: Option<nat>)
    requires Ready(blocks, top)
    ensures top.Some? ==> top.value < |blocks| && blocks[top.value].env.Some? && Once(blocks, top.value + 1)
    decreases |blocks|
  {
    if blocks != [] && top != Some(|blocks| - 1) {
      ReadyTop(blocks[..|blocks| - 1], top);
    }
  }

  lemma LastOf(blocks: seq<Block>, b: Block)
    ensures Last(blocks + [b]) == b && (blocks + [b])[..|blocks + [b]| - 1] == blocks
  {
  }

  /** A block whose frame is gone, ... */
  lemma ReadyUnder(blocks: seq<Block>, b: Block, top: Option<nat>)
    requires Ready(blocks, top) && b.pops == 1
    ensures Ready(blocks + [b], top)
  {
    LastOf(blocks, b);
    ReadyTop(blocks, top);
  }

  /** ... and one whose frame is on top. */
  lemma ReadyOver(blocks: seq<Block>, b: Block)
    requires Ready(blocks, b.prev) && b.pops == 0 && b.env.Some?
    ensures Ready(blocks + [b], Some(|blocks|))
  {
    LastOf(blocks, b);
  }

  /** What the frame of the innermost block holds. */
  function Held(blocks: seq<Block>): Option<Exception> {
    if blocks == [] then None else Last(blocks).exception
  }

  /** The state that the meaning of a statement asks for: at the rest of the program with everything as
      before, landed at the enclosing block, or broken. */
  function Reached(k: Rest, blocks: seq<Block>, top: Option<nat>, r: (Trace, Outcome)): State
    requires Ready(blocks, top) && (r.1.Raised? ==> top.Some?)
  {
    ReadyTop(blocks, top);
    match r.1
    case Normal => State(k, blocks, top, r.0)
    case Raised(e) => Landed(blocks, top.value, e, r.0)
    case Broken => Fault
  }

  /** The same seen from a block whose frame is gone. */
  lemma ReachedUnder(k: Rest, k': Rest, blocks: seq<Block>, b: Block, top: Option<nat>, r: (Trace, Outcome))
    requires Ready(blocks, top) && Ready(blocks + [b], top) && !r.1.Normal? && (r.1.Raised? ==> top.Some?)
    ensures Reached(k, blocks + [b], top, r) == Reached(k', blocks, top, r)
  {
    if r.1.Raised? {
      ReadyTop(blocks, top);
      assert (blocks + [b])[..top.value] == blocks[..top.value];
    }
  }

  /** A throw from any state that is ready. */
  lemma ThrowReached(k: Rest, blocks: seq<Block>, top: Option<nat>, e: Exception, cause: bool, tr: Trace, rest: Rest)
    requires Ready(blocks, top)
    ensures DoThrow(State(rest, blocks, top, tr), k, e, cause)
         == Reached(k, blocks, top, Signal(e, cause, top.Some?, tr))
  {
    ReadyTop(blocks, top);
  }

  /** From the start of its code the machine does what the statement means: the same events, and at the
      end the same blocks and the same frame pointer, or a jump to the enclosing block; it faults where the
      meaning is broken. */
  lemma {:induction false} Simulate(s: Stmt, k: Rest, blocks: seq<Block>, top: Option<nat>, tr: Trace) returns (n: nat)
    requires Ready(blocks, top)
    ensures var r := Exec(s, Held(blocks), top.Some?, tr);
      (r.1.Raised? ==> top.Some?) && Run(State(Do(Expand(s), k), blocks, top, tr), n) == Reached(k, blocks, top, r)
    decreases s, 2
  {
    if top.None? {
      UnguardedIsNormal(s, Held(blocks), tr);
    }
    match s
    case Then(s1, s2) =>
      n := SimulateThen(s1, s2, k, blocks, top, tr);
    case If(test, s1, s2) =>
      var now := if test(tr) then s1 else s2;
      n := Simulate(now, k, blocks, top, tr);
      After(State(Do(Expand(s), k), blocks, top, tr), State(Do(Expand(now), k), blocks, top, tr), n);
      n := n + 1;
    case Try(body, catches, final) =>
      n := SimulateTry(body, catches, final, k, blocks, top, tr);
    case _ =>
      n := SimulateOne(s, k, blocks, top, tr);
  }

  /** The statements that are one step. */
  lemma SimulateOne(s: Stmt, k: Rest, blocks: seq<Block>, top: Option<nat>, tr: Trace) returns (n: nat)
    requires Ready(blocks, top) && (s.Skip? || s.Act? || s.Throw? || s.ReThrow?)
    ensures var r := Exec(s, Held(blocks), top.Some?, tr);
      (r.1.Raised? ==> top.Some?) && Run(State(Do(Expand(s), k), blocks, top, tr), n) == Reached(k, blocks, top, r)
  {
    n := 1;
    var st := State(Do(Expand(s), k), blocks, top, tr);
    After(st, Step(st), 0);
    match s
    case Throw(e, cause) =>
      ThrowReached(k, blocks, top, e, cause, tr, st.rest);
    case ReThrow =>
      if Held(blocks).Some? {
        ThrowReached(k, blocks, top, Held(blocks).value, false, tr, st.rest);
      }
    case _ =>
  }

  lemma {:induction false} SimulateThen(s1: Stmt, s2: Stmt, k: Rest, blocks: seq<Block>, top: Option<nat>, tr: Trace)
    returns (n: nat)
    requires Ready(blocks, top)
    ensures var r := Exec(Then(s1, s2), Held(blocks), top.Some?, tr);
      && (r.1.Raised? ==> top.Some?)
      && Run(State(Do(Expand(Then(s1, s2)), k), blocks, top, tr), n) == Reached(k, blocks, top, r)
    decreases Then(s1, s2), 1
  {
    var st, k1 := State(Do(Expand(Then(s1, s2)), k), blocks, top, tr), Do(Expand(s2), k);
    n := Simulate(s1, k1, blocks, top, tr);
    After(st, State(Do(Expand(s1), k1), blocks, top, tr), n);
    n := n + 1;
    var r := Exec(s1, Held(blocks), top.Some?, tr);
    if r.1.Normal? {
      var n2 := Simulate(s2, k, blocks, top, r.0);
      RunAdd(st, n, n2);
      n := n + n2;
    }
  }

  // ----- Handlers

  /** `if (Exception_flag == ExceptionEntered) ntyExceptionPopStack` for a block whose frame is gone. */
  lemma NoPop(k: Rest, blocks: seq<Block>, b: Block, top: Option<nat>, tr: Trace)
    requires !b.flag.Entered?
    ensures Run(State(Do(PopIfEntered(), k), blocks + [b], top, tr), 2) == State(k, blocks + [b], top, tr)
  {
    LastOf(blocks, b);
    Two(State(Do(PopIfEntered(), k), blocks + [b], top, tr), State(Do(Empty, k), blocks + [b], top, tr),
        State(k, blocks + [b], top, tr));
  }

  /** From the test of a matching clause to its body. */
  lemma EnterHandler(e: Exception, h: Stmt, more: Catches, k: Rest, blocks: seq<Block>, b: Block, top: Option<nat>,
                     tr: Trace)
    requires b.exception == Some(e)
    ensures Run(State(Do(ExpandCatches(Catch(e, h, more)), k), blocks + [b], top, tr), 4)
         == State(Do(Expand(h), Do(PopIfEntered(), k)), blocks + [b.(flag := Handled)], top, tr)
  {
    LastOf(blocks, b);
    var body := Seq(Expand(h), PopIfEntered());
    Four(State(Do(ExpandCatches(Catch(e, h, more)), k), blocks + [b], top, tr),
         State(Do(Seq(SetFlag(Handled), body), k), blocks + [b], top, tr),
         State(Do(SetFlag(Handled), Do(body, k)), blocks + [b], top, tr),
         State(Do(body, k), blocks + [b.(flag := Handled)], top, tr),
         State(Do(Expand(h), Do(PopIfEntered(), k)), blocks + [b.(flag := Handled)], top, tr));
  }

  /** The state after the handlers: as before if none matches, flagged as handled if one has completed, and
      otherwise where that one has led. */
  function AfterCatches(k: Rest, blocks: seq<Block>, b: Block, top: Option<nat>, tr: Trace,
                        r: Option<(Trace, Outcome)>): State
    requires Ready(blocks, top) && (r.Some? && r.value.1.Raised? ==> top.Some?)
  {
    if r.None? then State(k, blocks + [b], top, tr)
    else if r.value.1.Normal? then State(k, blocks + [b.(flag := Handled)], top, r.value.0)
    else Reached(k, blocks, top, r.value)
  }

  /** The chain of handlers, entered with a thrown exception in the block's frame, its frame popped. */
  lemma {:induction false} SimulateCatches(cs: Catches, k: Rest, blocks: seq<Block>, b: Block, top: Option<nat>,
                                           tr: Trace) returns (n: nat)
    requires Ready(blocks, top) && b.exception.Some? && !b.flag.Entered? && b.pops == 1
    ensures var r := ExecCatches(cs, b.exception.value, top.Some?, tr);
      && (r.Some? && r.value.1.Raised? ==> top.Some?)
      && Run(State(Do(ExpandCatches(cs), k), blocks + [b], top, tr), n) == AfterCatches(k, blocks, b, top, tr, r)
    decreases cs, 0
  {
    var st := State(Do(ExpandCatches(cs), k), blocks + [b], top, tr);
    LastOf(blocks, b);
    match cs
    case NoCatch =>
      n := 1;
      After(st, State(k, blocks + [b], top, tr), 0);
    case Catch(e, h, more) =>
      if b.exception == Some(e) {
        EnterHandler(e, h, more, k, blocks, b, top, tr);
        n := SimulatePart(h, k, blocks, b.(flag := Handled), top, tr);
        RunAdd(st, 4, n);
        n := 4 + n;
      } else {
        n := SimulateCatches(more, k, blocks, b, top, tr);
        After(st, State(Do(ExpandCatches(more), k), blocks + [b], top, tr), n);
        n := n + 1;
      }
  }

  /** A handler or a `Finally` block, to its end: the frame of the block is gone already. */
  lemma SimulatePart(s: Stmt, k: Rest, blocks: seq<Block>, b: Block, top: Option<nat>, tr: Trace) returns (n: nat)
    requires Ready(blocks, top) && b.pops == 1 && !b.flag.Entered?
    ensures var r := Exec(s, b.exception, top.Some?, tr);
      && (r.1.Raised? ==> top.Some?)
      && Run(State(Do(Expand(s), Do(PopIfEntered(), k)), blocks + [b], top, tr), n)
         == if r.1.Normal? then State(k, blocks + [b], top, r.0) else Reached(k, blocks, top, r)
    decreases s, 3
  {
    var st := State(Do(Expand(s), Do(PopIfEntered(), k)), blocks + [b], top, tr);
    LastOf(blocks, b);
    ReadyUnder(blocks, b, top);
    n := Simulate(s, Do(PopIfEntered(), k), blocks + [b], top, tr);
    var r := Exec(s, b.exception, top.Some?, tr);
    if r.1.Normal? {
      NoPop(k, blocks, b, top, r.0);
      RunAdd(st, n, 2);
      n := n + 2;
    } else {
      ReachedUnder(Do(PopIfEntered(), k), k, blocks, b, top, r);
    }
  }

  // ----- Finally and EndTry

  /** The end of a block: the pending exception goes to the enclosing one, or the block is left. */
  lemma SimulateEnd(k: Rest, blocks: seq<Block>, b: Block, top: Option<nat>, tr: Trace) returns (n: nat)
    requires Ready(blocks, top) && b.pops == 1 && (b.flag.Thrown? ==> b.exception.Some?)
    ensures var r := if b.flag.Thrown? then Signal(b.exception.value, false, top.Some?, tr) else (tr, Normal);
      Run(State(Do(EndTry(), k), blocks + [b], top, tr), n) == Reached(k, blocks, top, r)
  {
    LastOf(blocks, b);
    ReadyUnder(blocks, b, top);
    var close := Do(CloseBlock, k);
    var s0 := State(Do(EndTry(), k), blocks + [b], top, tr);
    var s1 := State(Do(Branch(FlagIs(Thrown), CallReThrow, Empty), close), blocks + [b], top, tr);
    var s2 := State(Do(if b.flag.Thrown? then CallReThrow else Empty, close), blocks + [b], top, tr);
    Two(s0, s1, s2);
    if b.flag.Thrown? {
      ThrowReached(close, blocks + [b], top, b.exception.value, false, tr, s2.rest);
    }
    if b.flag.Thrown? && top.Some? {
      ReachedUnder(close, k, blocks, b, top, (tr, Raised(b.exception.value)));
      After(s2, Step(s2), 0);
      RunAdd(s0, 2, 1);
      n := 3;
    } else {
      var t := if b.flag.Thrown? then tr + [Logged(b.exception.value, false)] else tr;
      Two(s2, State(close, blocks + [b], top, t), State(k, blocks, top, t));
      RunAdd(s0, 2, 2);
      n := 4;
    }
  }

  /** The flag test in front of a `Finally` block. */
  lemma EnterFinally(f: Stmt, k: Rest, blocks: seq<Block>, b: Block, top: Option<nat>, tr: Trace)
    ensures Run(State(Do(ExpandFinal(Finally(f)), k), blocks + [b], top, tr), 4)
         == State(Do(Expand(f), Do(PopIfEntered(), k)), blocks + [InFinally(b)], top, tr)
  {
    LastOf(blocks, b);
    var body := Do(Seq(Expand(f), PopIfEntered()), k);
    Four(State(Do(ExpandFinal(Finally(f)), k), blocks + [b], top, tr),
         State(Do(Branch(FlagIs(Entered), SetFlag(Finalized), Empty), body), blocks + [b], top, tr),
         State(Do(if b.flag.Entered? then SetFlag(Finalized) else Empty, body), blocks + [b], top, tr),
         State(body, blocks + [InFinally(b)], top, tr),
         State(Do(Expand(f), Do(PopIfEntered(), k)), blocks + [InFinally(b)], top, tr));
  }

  function InFinally(b: Block): Block {
    if b.flag.Entered? then b.(flag := Finalized) else b
  }

  /** The `Finally` block, if there is one: its own exception goes out at once, otherwise the block's flag
      still says what is pending. */
  lemma SimulateFinal(final: Final, k: Rest, blocks: seq<Block>, b: Block, top: Option<nat>, tr: Trace)
    returns (n: nat, b': Block)
    requires Ready(blocks, top) && b.pops == 1
    ensures b' == b.(flag := b'.flag) && (b'.flag.Thrown? <==> b.flag.Thrown?)
    ensures var r := ExecBlock(final, b.exception, top.Some?, tr);
      && (r.1.Raised? ==> top.Some?)
      && Run(State(Do(ExpandFinal(final), k), blocks + [b], top, tr), n)
         == if r.1.Normal? then State(k, blocks + [b'], top, r.0) else Reached(k, blocks, top, r)
    decreases final, 0
  {
    var st := State(Do(ExpandFinal(final), k), blocks + [b], top, tr);
    if final.NoFinally? {
      b' := b;
      n := 1;
      After(st, State(k, blocks + [b], top, tr), 0);
    } else {
      b' := InFinally(b);
      EnterFinally(final.block, k, blocks, b, top, tr);
      n := SimulatePart(final.block, k, blocks, b', top, tr);
      RunAdd(st, 4, n);
      n := 4 + n;
    }
  }

  /** Everything after the chain of handlers. */
  lemma SimulateTail(final: Final, k: Rest, blocks: seq<Block>, b: Block, top: Option<nat>, tr: Trace)
    returns (n: nat)
    requires Ready(blocks, top) && b.pops == 1 && (b.flag.Thrown? ==> b.exception.Some?)
    ensures var r := ExecFinal(final, b.exception, b.flag.Thrown?, top.Some?, tr);
      && (r.1.Raised? ==> top.Some?)
      && Run(State(Do(Tail(final), k), blocks + [b], top, tr), n) == Reached(k, blocks, top, r)
    decreases final, 1
  {
    var st, k1 := State(Do(Tail(final), k), blocks + [b], top, tr), Do(EndTry(), k);
    var b';
    n, b' := SimulateFinal(final, k1, blocks, b, top, tr);
    After(st, State(Do(ExpandFinal(final), k1), blocks + [b], top, tr), n);
    n := n + 1;
    var r := ExecBlock(final, b.exception, top.Some?, tr);
    if r.1.Normal? {
      var m := SimulateEnd(k, blocks, b', top, r.0);
      RunAdd(st, n, m);
      n := n + m;
    }
  }

  // ----- Try

  function Tail(final: Final): Code {
    Seq(ExpandFinal(final), EndTry())
  }

  /** What is run when `setjmp` returns, for the first or the second time. */
  function AfterSetJmp(body: Stmt, catches: Catches, final: Final, k: Rest): Rest {
    Do(Seq(Branch(FlagIs(Entered), Seq(Expand(body), PopIfEntered()), ExpandCatches(catches)), Tail(final)), k)
  }

  /** A block entered: its frame is on top of the stack and its `setjmp` returned 0. */
  lemma EnterTry(body: Stmt, catches: Catches, final: Final, k: Rest, blocks: seq<Block>, top: Option<nat>, tr: Trace)
    ensures var b := Block(Entered, None, top, Some(AfterSetJmp(body, catches, final, k)), 0);
      Run(State(Do(Expand(Try(body, catches, final)), k), blocks, top, tr), 4)
        == State(AfterSetJmp(body, catches, final, k), blocks + [b], Some(|blocks|), tr)
  {
    var k1 := AfterSetJmp(body, catches, final, k);
    var b0, b1 := Block(Entered, None, top, None, 0), Block(Entered, None, top, Some(k1), 0);
    LastOf(blocks, b0);
    Four(State(Do(Expand(Try(body, catches, final)), k), blocks, top, tr),
         State(Do(OpenBlock, Do(Seq(SetJmp, k1.code), k)), blocks, top, tr),
         State(Do(Seq(SetJmp, k1.code), k), blocks + [b0], Some(|blocks|), tr),
         State(Do(SetJmp, k1), blocks + [b0], Some(|blocks|), tr),
         State(k1, blocks + [b1], Some(|blocks|), tr));
  }

  /** The branch on the value `setjmp` returned. */
  function Branched(b: Block, body: Stmt, catches: Catches): Code {
    if b.flag.Entered? then Seq(Expand(body), PopIfEntered()) else ExpandCatches(catches)
  }

  lemma TakeBranch(body: Stmt, catches: Catches, final: Final, k: Rest, blocks: seq<Block>, b: Block,
                   top: Option<nat>, tr: Trace)
    ensures Run(State(AfterSetJmp(body, catches, final, k), blocks + [b], top, tr), 2)
         == State(Do(Branched(b, body, catches), Do(Tail(final), k)), blocks + [b], top, tr)
  {
    LastOf(blocks, b);
    var tail := Do(Tail(final), k);
    Two(State(AfterSetJmp(body, catches, final, k), blocks + [b], top, tr),
        State(Do(Branch(FlagIs(Entered), Seq(Expand(body), PopIfEntered()), ExpandCatches(catches)), tail),
              blocks + [b], top, tr),
        State(Do(Branched(b, body, catches), tail), blocks + [b], top, tr));
  }

  function Gone(b: Block): Block {
    b.(pops := b.pops + 1)
  }

  /** A body that completes pops its own frame. */
  lemma PopOwn(k: Rest, blocks: seq<Block>, b: Block, tr: Trace)
    requires b.flag.Entered?
    ensures Run(State(Do(PopIfEntered(), k), blocks + [b], Some(|blocks|), tr), 2)
         == State(k, blocks + [Gone(b)], b.prev, tr)
  {
    LastOf(blocks, b);
    assert (blocks + [b])[|blocks| := Gone(b)] == blocks + [Gone(b)];
    Two(State(Do(PopIfEntered(), k), blocks + [b], Some(|blocks|), tr),
        State(Do(PopStack, k), blocks + [b], Some(|blocks|), tr),
        State(k, blocks + [Gone(b)], b.prev, tr));
  }

  /** The state after the body of a block. */
  function AfterBody(tail: Rest, blocks: seq<Block>, b: Block, r: (Trace, Outcome)): State
    requires b.env.Some?
  {
    match r.1
    case Normal => State(tail, blocks + [Gone(b)], b.prev, r.0)
    case Raised(e) => State(b.env.value, blocks + [Caught(b, e)], b.prev, r.0)
    case Broken => Fault
  }

  /** The body of a block: it pops the frame at its end, or it lands at the block's `setjmp`, which pops it
      as well. */
  lemma SimulateBody(body: Stmt, catches: Catches, final: Final, k: Rest, blocks: seq<Block>, b: Block, tr: Trace)
    returns (n: nat)
    requires Ready(blocks, b.prev) && b.flag.Entered? && b.exception.None? && b.env.Some? && b.pops == 0
    ensures var r := Exec(body, None, true, tr);
      Run(State(AfterSetJmp(body, catches, final, k), blocks + [b], Some(|blocks|), tr), n)
        == AfterBody(Do(Tail(final), k), blocks, b, r)
    decreases body, 3
  {
    var st := State(AfterSetJmp(body, catches, final, k), blocks + [b], Some(|blocks|), tr);
    var tail := Do(Tail(final), k);
    LastOf(blocks, b);
    ReadyOver(blocks, b);
    TakeBranch(body, catches, final, k, blocks, b, Some(|blocks|), tr);
    n := Simulate(body, Do(PopIfEntered(), tail), blocks + [b], Some(|blocks|), tr);
    After(State(Do(Seq(Expand(body), PopIfEntered()), tail), blocks + [b], Some(|blocks|), tr),
          State(Do(Expand(body), Do(PopIfEntered(), tail)), blocks + [b], Some(|blocks|), tr), n);
    RunAdd(st, 2, n + 1);
    n := 3 + n;
    var r := Exec(body, None, true, tr);
    if r.1.Normal? {
      PopOwn(tail, blocks, b, r.0);
      RunAdd(st, n, 2);
      n := n + 2;
    } else {
      assert (blocks + [b])[..|blocks|] == blocks;
    }
  }

  /** What a block does after its body has thrown. */
  function ExecThrown(catches: Catches, final: Final, e: Exception, guarded: bool, tr: Trace): (Trace, Outcome) {
    match ExecCatches(catches, e, guarded, tr)
    case None => ExecFinal(final, Some(e), true, guarded, tr)
    case Some((t, o)) => if o.Normal? then ExecFinal(final, Some(e), false, guarded, t) else (t, o)
  }

  lemma SimulateThrown(body: Stmt, catches: Catches, final: Final, k: Rest, blocks: seq<Block>, b: Block,
                       top: Option<nat>, tr: Trace) returns (n: nat)
    requires Ready(blocks, top) && b.flag.Thrown? && b.exception.Some? && b.pops == 1
    ensures var r := ExecThrown(catches, final, b.exception.value, top.Some?, tr);
      && (r.1.Raised? ==> top.Some?)
      && Run(State(AfterSetJmp(body, catches, final, k), blocks + [b], top, tr), n) == Reached(k, blocks, top, r)
    decreases Try(body, catches, final), 0, 0
  {
    var st := State(AfterSetJmp(body, catches, final, k), blocks + [b], top, tr);
    TakeBranch(body, catches, final, k, blocks, b, top, tr);
    n := SimulateCatches(catches, Do(Tail(final), k), blocks, b, top, tr);
    RunAdd(st, 2, n);
    n := 2 + n;
    var c := ExecCatches(catches, b.exception.value, top.Some?, tr);
    if c.None? {
      var m := SimulateTail(final, k, blocks, b, top, tr);
      RunAdd(st, n, m);
      n := n + m;
    } else if c.value.1.Normal? {
      var m := SimulateTail(final, k, blocks, b.(flag := Handled), top, c.value.0);
      RunAdd(st, n, m);
      n := n + m;
    }
  }

  /** A block from its start to the end of its body. */
  lemma SimulateOpen(body: Stmt, catches: Catches, final: Final, k: Rest, blocks: seq<Block>, b: Block, tr: Trace)
    returns (n: nat)
    requires Ready(blocks, b.prev) && b == Block(Entered, None, b.prev, Some(AfterSetJmp(body, catches, final, k)), 0)
    ensures Run(State(Do(Expand(Try(body, catches, final)), k), blocks, b.prev, tr), n)
         == AfterBody(Do(Tail(final), k), blocks, b, Exec(body, None, true, tr))
    decreases Try(body, catches, final), 0, 1
  {
    EnterTry(body, catches, final, k, blocks, b.prev, tr);
    n := SimulateBody(body, catches, final, k, blocks, b, tr);
    RunAdd(State(Do(Expand(Try(body, catches, final)), k), blocks, b.prev, tr), 4, n);
    n := 4 + n;
  }

  lemma SimulateTry(body: Stmt, catches: Catches, final: Final, k: Rest, blocks: seq<Block>, top: Option<nat>,
                    tr: Trace)
    returns (n: nat)
    requires Ready(blocks, top)
    ensures var r := Exec(Try(body, catches, final), Held(blocks), top.Some?, tr);
      && (r.1.Raised? ==> top.Some?)
      && Run(State(Do(Expand(Try(body, catches, final)), k), blocks, top, tr), n) == Reached(k, blocks, top, r)
    decreases Try(body, catches, final), 1
  {
    var b := Block(Entered, None, top, Some(AfterSetJmp(body, catches, final, k)), 0);
    n := SimulateOpen(body, catches, final, k, blocks, b, tr);
    var m := SimulateRest(body, catches, final, k, blocks, b, Exec(body, None, true, tr));
    TryIs(body, catches, final, Held(blocks), top.Some?, tr);
    RunAdd(State(Do(Expand(Try(body, catches, final)), k), blocks, top, tr), n, m);
    n := n + m;
  }

  lemma TryIs(body: Stmt, catches: Catches, final: Final, held: Option<Exception>, guarded: bool, tr: Trace)
    ensures Exec(Try(body, catches, final), held, guarded, tr)
         == ExecRest(catches, final, Exec(body, None, true, tr), guarded)
  {
  }

  /** What a block does after its body. */
  function ExecRest(catches: Catches, final: Final, r: (Trace, Outcome), guarded: bool): (Trace, Outcome) {
    match r.1
    case Normal => ExecFinal(final, None, false, guarded, r.0)
    case Raised(e) => ExecThrown(catches, final, e, guarded, r.0)
    case Broken => r
  }

  lemma SimulateRest(body: Stmt, catches: Catches, final: Final, k: Rest, blocks: seq<Block>, b: Block, r: (Trace,
                     Outcome))
    returns (m: nat)
    requires Ready(blocks, b.prev) && b == Block(Entered, None, b.prev, Some(AfterSetJmp(body, catches, final, k)), 0)
    ensures var r' := ExecRest(catches, final, r, b.prev.Some?);
      && (r'.1.Raised? ==> b.prev.Some?)
      && Run(AfterBody(Do(Tail(final), k), blocks, b, r), m) == Reached(k, blocks, b.prev, r')
    decreases Try(body, catches, final), 0, 1
  {
    match r.1
    case Normal =>
      m := SimulateTail(final, k, blocks, Gone(b), b.prev, r.0);
    case Raised(e) =>
      m := SimulateThrown(body, catches, final, k, blocks, Caught(b, e), b.prev, r.0);
    case Broken =>
      m := 0;
  }

  // ----- Whole programs

  function Start(s: Stmt): State {
    State(Do(Expand(s), Done), [], None, [])
  }

  /** A program of such blocks, started with an empty frame stack, comes to its end with exactly the events
      of its meaning, with no block open and no frame left; and at no moment on the way is a frame used
      that is not there, or a block left whose frame was not popped exactly once. Only a program whose
      meaning is broken faults. */
  lemma ProgramMeaning(s: Stmt) returns (n: nat)
    ensures var r := Exec(s, None, false, []);
      && !r.1.Raised?
      && (forall m: nat | n <= m :: Run(Start(s), m) == Result(r))
      && (r.1.Normal? <==> forall m: nat :: !Run(Start(s), m).Fault?)
  {
    var r := Exec(s, None, false, []);
    UnguardedIsNormal(s, None, []);
    n := Simulate(s, Done, [], None, []);
    Ends(Start(s), n, Result(r));
    assert Run(Start(s), n) == Result(r);
  }

  /** Where a program ends. */
  function Result(r: (Trace, Outcome)): State {
    if r.1.Normal? then State(Done, [], None, r.0) else Fault
  }

  lemma Ends(st: State, n: nat, last: State)
    requires Run(st, n) == last && Step(last) == last
    ensures forall m: nat | n <= m :: Run(st, m) == last
    ensures last.State? ==> forall m: nat :: !Run(st, m).Fault?
  {
    forall m: nat
      ensures n <= m ==> Run(st, m) == last
      ensures last.State? ==> !Run(st, m).Fault?
    {
      if n <= m {
        RunAdd(st, n, m - n);
        FinalStays(last, m - n);
      } else if Run(st, m).Fault? {
        RunAdd(st, m, n - m);
        FinalStays(Fault, n - m);
      }
    }
  }

  /** A program with `ReThrow` in handlers only never faults. */
  lemma WellFormedRuns(s: Stmt, m: nat)
    requires WellFormed(s, false)
    ensures !Run(Start(s), m).Fault?
  {
    WellFormedHolds(s, None, false, []);
    var n := ProgramMeaning(s);
  }

  // ----- What is logged

  /** The events behind the first `n` are the thread's own actions. */
  predicate Quiet(tr: Trace, n: nat) {
    n <= |tr| && forall i | n <= i < |tr| :: tr[i].Did?
  }

  /** Inside a block nothing is ever logged, however often exceptions are thrown there. */
  lemma {:induction false} GuardedQuiet(s: Stmt, held: Option<Exception>, tr: Trace, n: nat)
    requires Quiet(tr, n)
    ensures Quiet(Exec(s, held, true, tr).0, n)
    decreases s, 1
  {
    match s
    case Then(s1, s2) =>
      GuardedQuiet(s1, held, tr, n);
      GuardedQuiet(s2, held, Exec(s1, held, true, tr).0, n);
    case If(test, s1, s2) =>
      GuardedQuiet(if test(tr) then s1 else s2, held, tr, n);
    case Try(body, catches, final) =>
      var (t1, o1) := Exec(body, None, true, tr);
      GuardedQuiet(body, None, tr, n);
      if o1.Normal? {
        QuietFinal(final, None, false, t1, n);
      } else if o1.Raised? {
        QuietCatches(catches, o1.e, t1, n);
        var r := ExecCatches(catches, o1.e, true, t1);
        QuietFinal(final, Some(o1.e), r.None?, if r.None? then t1 else r.value.0, n);
      }
    case _ =>
  }

  lemma {:induction false} QuietCatches(cs: Catches, e: Exception, tr: Trace, n: nat)
    requires Quiet(tr, n)
    ensures var r := ExecCatches(cs, e, true, tr); r.Some? ==> Quiet(r.value.0, n)
    decreases cs, 0
  {
    if cs.Catch? {
      if cs.e == e {
        GuardedQuiet(cs.handler, Some(e), tr, n);
      } else {
        QuietCatches(cs.more, e, tr, n);
      }
    }
  }

  lemma QuietFinal(f: Final, held: Option<Exception>, pending: bool, tr: Trace, n: nat)
    requires Quiet(tr, n)
    ensures Quiet(ExecFinal(f, held, pending, true, tr).0, n)
    decreases f, 0
  {
    if f.Finally? {
      GuardedQuiet(f.block, held, tr, n);
    }
  }

  /** Outside all blocks every throw of a program logs its exception once, and the program goes on. */
  lemma ThrowLogs(before: Stmt, e: Exception, cause: bool, after: Stmt) returns (n: nat)
    requires Exec(before, None, false, []).1.Normal?
    ensures var logged := Exec(before, None, false, []).0 + [Logged(e, cause)];
      forall m: nat | n <= m ::
        Run(Start(Then(before, Then(Throw(e, cause), after))), m) == Result(Exec(after, None, false, logged))
  {
    var t := Exec(before, None, false, []).0;
    assert Exec(Throw(e, cause), None, false, t) == (t + [Logged(e, cause)], Normal);
    n := ProgramMeaning(Then(before, Then(Throw(e, cause), after)));
  }

  /** So does an exception that no handler of an outermost block takes, without a cause, ... */
  lemma UncaughtLogs(before: Stmt, body: Stmt, catches: Catches, after: Stmt, e: Exception) returns (n: nat)
    requires var r := Exec(before, None, false, []);
      r.1.Normal? && Exec(body, None, true, r.0).1 == Raised(e) && e !in Named(catches)
    ensures var logged := Exec(body, None, true, Exec(before, None, false, []).0).0 + [Logged(e, false)];
      forall m: nat | n <= m ::
        Run(Start(Then(before, Then(Try(body, catches, NoFinally), after))), m)
          == Result(Exec(after, None, false, logged))
  {
    var t := Exec(body, None, true, Exec(before, None, false, []).0).0;
    MayRaiseCatches(catches, e, {e}, false, t);
    OuterBlock(body, catches, e, Exec(before, None, false, []).0);
    n := ProgramMeaning(Then(before, Then(Try(body, catches, NoFinally), after)));
  }

  lemma OuterBlock(body: Stmt, catches: Catches, e: Exception, tr: Trace)
    requires Exec(body, None, true, tr).1 == Raised(e)
    requires ExecCatches(catches, e, false, Exec(body, None, true, tr).0).None?
    ensures Exec(Try(body, catches, NoFinally), None, false, tr)
         == (Exec(body, None, true, tr).0 + [Logged(e, false)], Normal)
  {
  }

  /** ... and one that its handler throws again. */
  lemma RethrownLogs(before: Stmt, body: Stmt, after: Stmt, e: Exception) returns (n: nat)
    requires var r := Exec(before, None, false, []); r.1.Normal? && Exec(body, None, true, r.0).1 == Raised(e)
    ensures var logged := Exec(body, None, true, Exec(before, None, false, []).0).0 + [Logged(e, false)];
      forall m: nat | n <= m ::
        Run(Start(Then(before, Then(Try(body, Catch(e, ReThrow, NoCatch), NoFinally), after))), m)
          == Result(Exec(after, None, false, logged))
  {
    var t0 := Exec(before, None, false, []).0;
    var t := Exec(body, None, true, t0).0;
    assert ExecCatches(Catch(e, ReThrow, NoCatch), e, false, t) == Some((t + [Logged(e, false)], Normal));
    assert Exec(Try(body, Catch(e, ReThrow, NoCatch), NoFinally), None, false, t0) == (t + [Logged(e, false)], Normal);
    n := ProgramMeaning(Then(before, Then(Try(body, Catch(e, ReThrow, NoCatch), NoFinally), after)));
  }

  // ----- Finally, and when it is skipped

  /** The customary meaning, in which `Finally` runs however the handlers end. */
  function Ideal(s: Stmt, held: Option<Exception>, guarded: bool, tr: Trace): (Trace, Outcome)
    decreases s, 1
  {
    match s
    case Then(s1, s2) =>
      var (t1, o1) := Ideal(s1, held, guarded, tr);
      if o1.Normal? then Ideal(s2, held, guarded, t1) else (t1, o1)
    case If(test, s1, s2) => if test(tr) then Ideal(s1, held, guarded, tr) else Ideal(s2, held, guarded, tr)
    case Try(body, catches, final) =>
      var (t1, o1) := Ideal(body, None, true, tr);
      if o1.Normal? then IdealFinal(final, None, None, guarded, t1)
      else if o1.Broken? then (t1, o1)
      else (
        match IdealCatches(catches, o1.e, guarded, t1)
        case None => IdealFinal(final, Some(o1.e), Some(o1.e), guarded, t1)
        case Some((t2, o2)) =>
          if o2.Broken? then (t2, o2)
          else IdealFinal(final, Some(o1.e), if o2.Raised? then Some(o2.e) else None, guarded, t2))
    case _ => Exec(s, held, guarded, tr)
  }

  function IdealCatches(cs: Catches, e: Exception, guarded: bool, tr: Trace): Option<(Trace, Outcome)>
    decreases cs, 0
  {
    match cs
    case NoCatch => None
    case Catch(e', h, more) =>
      if e == e' then Some(Ideal(h, Some(e), guarded, tr)) else IdealCatches(more, e, guarded, tr)
  }

  function IdealFinal(f: Final, held: Option<Exception>, pending: Option<Exception>, guarded: bool,
                      tr: Trace): (Trace, Outcome)
    decreases f, 0
  {
    var (t, o) := if f.Finally? then Ideal(f.block, held, guarded, tr) else (tr, Normal);
    if o.Normal? && pending.Some? then Signal(pending.value, false, guarded, t) else (t, o)
  }

  /** On the run from `tr` the handler of some block with a `Finally` raises an exception of its own. */
  predicate Skips(s: Stmt, held: Option<Exception>, guarded: bool, tr: Trace)
    decreases s, 1
  {
    match s
    case Then(s1, s2) =>
      var (t1, o1) := Exec(s1, held, guarded, tr);
      Skips(s1, held, guarded, tr) || (o1.Normal? && Skips(s2, held, guarded, t1))
    case If(test, s1, s2) => Skips(if test(tr) then s1 else s2, held, guarded, tr)
    case Try(body, catches, final) =>
      var (t1, o1) := Exec(body, None, true, tr);
      || Skips(body, None, true, tr)
      || (o1.Normal? && SkipsFinal(final, None, guarded, t1))
      || (o1.Raised? && SkipsCatches(catches, o1.e, guarded, t1))
      || (o1.Raised? &&
            var r := ExecCatches(catches, o1.e, guarded, t1);
            if r.None? then SkipsFinal(final, Some(o1.e), guarded, t1)
            else if r.value.1.Normal? then SkipsFinal(final, Some(o1.e), guarded, r.value.0)
            else r.value.1.Raised? && final.Finally?)
    case _ => false
  }

  predicate SkipsCatches(cs: Catches, e: Exception, guarded: bool, tr: Trace)
    decreases cs, 0
  {
    cs.Catch? &&
      if cs.e == e then Skips(cs.handler, Some(e), guarded, tr) else SkipsCatches(cs.more, e, guarded, tr)
  }

  predicate SkipsFinal(f: Final, held: Option<Exception>, guarded: bool, tr: Trace)
    decreases f, 0
  {
    f.Finally? && Skips(f.block, held, guarded, tr)
  }

  /** Where no `Finally` is skipped the macros mean what is customary, whatever the nesting. */
  lemma {:induction false} IdealUnlessSkipped(s: Stmt, held: Option<Exception>, guarded: bool, tr: Trace)
    requires !Skips(s, held, guarded, tr)
    ensures Ideal(s, held, guarded, tr) == Exec(s, held, guarded, tr)
    decreases s, 1
  {
    match s
    case Then(s1, s2) =>
      IdealUnlessSkipped(s1, held, guarded, tr);
      var r := Exec(s1, held, guarded, tr);
      if r.1.Normal? {
        IdealUnlessSkipped(s2, held, guarded, r.0);
      }
    case If(test, s1, s2) =>
      IdealUnlessSkipped(if test(tr) then s1 else s2, held, guarded, tr);
    case Try(body, catches, final) =>
      IdealUnlessSkipped(body, None, true, tr);
      var (t1, o1) := Exec(body, None, true, tr);
      if o1.Normal? {
        IdealFinalUnlessSkipped(final, None, false, guarded, t1);
      } else if o1.Raised? {
        IdealCatchesUnlessSkipped(catches, o1.e, guarded, t1);
        var r := ExecCatches(catches, o1.e, guarded, t1);
        if r.None? {
          IdealFinalUnlessSkipped(final, Some(o1.e), true, guarded, t1);
        } else if r.value.1.Normal? {
          IdealFinalUnlessSkipped(final, Some(o1.e), false, guarded, r.value.0);
        } else if !guarded {
          UnguardedCatches(catches, o1.e, t1);
        }
      }
    case _ =>
  }

  lemma {:induction false} IdealCatchesUnlessSkipped(cs: Catches, e: Exception, guarded: bool, tr: Trace)
    requires !SkipsCatches(cs, e, guarded, tr)
    ensures IdealCatches(cs, e, guarded, tr) == ExecCatches(cs, e, guarded, tr)
    decreases cs, 0
  {
    if cs.Catch? {
      if cs.e == e {
        IdealUnlessSkipped(cs.handler, Some(e), guarded, tr);
      } else {
        IdealCatchesUnlessSkipped(cs.more, e, guarded, tr);
      }
    }
  }

  lemma IdealFinalUnlessSkipped(f: Final, held: Option<Exception>, pending: bool, guarded: bool, tr: Trace)
    requires !SkipsFinal(f, held, guarded, tr)
    ensures IdealFinal(f, held, if pending then held else None, guarded, tr) == ExecFinal(f, held, pending, guarded, tr)
    decreases f, 0
  {
    if f.Finally? {
      IdealUnlessSkipped(f.block, held, guarded, tr);
    }
  }

  /** For one block whose parts have their customary meaning, the exact condition: so has the block, unless
      a handler raises and the `Finally` block it passes over would have shown an effect: an event, or
      another exception. */
  lemma AgreeIff(body: Stmt, catches: Catches, f: Stmt, held: Option<Exception>, guarded: bool, tr: Trace)
    requires Ideal(body, None, true, tr) == Exec(body, None, true, tr)
    requires var (t1, o1) := Exec(body, None, true, tr);
      && (o1.Normal? ==> Ideal(f, None, guarded, t1) == Exec(f, None, guarded, t1))
      && (o1.Raised? ==>
           && IdealCatches(catches, o1.e, guarded, t1) == ExecCatches(catches, o1.e, guarded, t1)
           && var r := ExecCatches(catches, o1.e, guarded, t1);
              var t := if r.None? then t1 else r.value.0;
              Ideal(f, Some(o1.e), guarded, t) == Exec(f, Some(o1.e), guarded, t))
    ensures var s := Try(body, catches, Finally(f));
      var (t1, o1) := Exec(body, None, true, tr);
      var r := if o1.Raised? then ExecCatches(catches, o1.e, guarded, t1) else None;
      && (Ideal(s, held, guarded, tr) == Exec(s, held, guarded, tr)
          <==> (r.Some? && r.value.1.Raised? ==>
                 var (t2, o2) := r.value;
                 Exec(f, Some(o1.e), guarded, t2) == (t2, Normal) || Exec(f, Some(o1.e), guarded, t2) == (t2, o2)))
  {
    var (t1, o1) := Exec(body, None, true, tr);
    if o1.Normal? {
      FinalAgrees(f, None, false, guarded, t1);
    } else if o1.Raised? {
      var r := ExecCatches(catches, o1.e, guarded, t1);
      if r.None? {
        FinalAgrees(f, Some(o1.e), true, guarded, t1);
      } else if r.value.1.Normal? {
        FinalAgrees(f, Some(o1.e), false, guarded, r.value.0);
      } else if r.value.1.Raised? {
        AgreeRaised(f, Some(o1.e), guarded, r.value.0, r.value.1.e);
        if !guarded {
          UnguardedCatches(catches, o1.e, t1);
        }
      }
    }
  }

  lemma FinalAgrees(f: Stmt, held: Option<Exception>, pending: bool, guarded: bool, t: Trace)
    requires Ideal(f, held, guarded, t) == Exec(f, held, guarded, t)
    ensures IdealFinal(Finally(f), held, if pending then held else None, guarded, t)
         == ExecFinal(Finally(f), held, pending, guarded, t)
  {
  }

  /** The case of a handler that has raised `e`. */
  lemma AgreeRaised(f: Stmt, held: Option<Exception>, guarded: bool, t: Trace, e: Exception)
    requires Ideal(f, held, guarded, t) == Exec(f, held, guarded, t)
    ensures guarded ==>
      (IdealFinal(Finally(f), held, Some(e), guarded, t) == (t, Raised(e))
       <==> Exec(f, held, guarded, t) == (t, Normal) || Exec(f, held, guarded, t) == (t, Raised(e)))
  {
  }

  // ----- What can be read off a program

  /** The exceptions a statement may raise, if the frame of the innermost block holds one of `held`. */
  function May(s: Stmt, held: set<Exception>): set<Exception>
    decreases s, 1
  {
    match s
    case Then(s1, s2) => May(s1, held) + May(s2, held)
    case If(_, s1, s2) => May(s1, held) + May(s2, held)
    case Throw(e, _) => {e}
    case ReThrow => held
    case Try(body, catches, final) =>
      var thrown := May(body, {});
      (thrown - Named(catches)) + MayCatches(catches, thrown) + MayFinal(final, thrown)
    case _ => {}
  }

  /** Those of the handlers for the exceptions `thrown`; only the first for each is ever run. */
  function MayCatches(cs: Catches, thrown: set<Exception>): set<Exception>
    decreases cs, 0
  {
    match cs
    case NoCatch => {}
    case Catch(e, h, more) => (if e in thrown then May(h, {e}) else {}) + MayCatches(more, thrown - {e})
  }

  function MayFinal(f: Final, thrown: set<Exception>): set<Exception>
    decreases f, 0
  {
    if f.Finally? then May(f.block, thrown) else {}
  }

  function Named(cs: Catches): set<Exception> {
    if cs.NoCatch? then {} else {cs.e} + Named(cs.more)
  }

  lemma {:induction false} MayRaise(s: Stmt, held: Option<Exception>, bound: set<Exception>, guarded: bool, tr: Trace)
    requires held.Some? ==> held.value in bound
    ensures var o := Exec(s, held, guarded, tr).1; o.Raised? ==> o.e in May(s, bound)
    decreases s, 1
  {
    match s
    case Then(s1, s2) =>
      MayRaise(s1, held, bound, guarded, tr);
      MayRaise(s2, held, bound, guarded, Exec(s1, held, guarded, tr).0);
    case If(test, s1, s2) =>
      MayRaise(if test(tr) then s1 else s2, held, bound, guarded, tr);
    case Try(body, catches, final) =>
      var (t1, o1) := Exec(body, None, true, tr);
      MayRaise(body, None, {}, true, tr);
      if o1.Normal? {
        MayRaiseFinal(final, None, false, May(body, {}), guarded, t1);
      } else if o1.Raised? {
        MayRaiseCatches(catches, o1.e, May(body, {}), guarded, t1);
        var r := ExecCatches(catches, o1.e, guarded, t1);
        MayRaiseFinal(final, Some(o1.e), r.None?, May(body, {}), guarded, if r.None? then t1 else r.value.0);
      }
    case _ =>
  }

  lemma {:induction false} MayRaiseCatches(cs: Catches, e: Exception, thrown: set<Exception>, guarded: bool, tr: Trace)
    requires e in thrown
    ensures var r := ExecCatches(cs, e, guarded, tr);
      && (r.None? <==> e !in Named(cs))
      && (r.Some? && r.value.1.Raised? ==> r.value.1.e in MayCatches(cs, thrown))
    decreases cs, 0
  {
    if cs.Catch? {
      if cs.e == e {
        MayRaise(cs.handler, Some(e), {e}, guarded, tr);
      } else {
        MayRaiseCatches(cs.more, e, thrown - {cs.e}, guarded, tr);
      }
    }
  }

  lemma MayRaiseFinal(f: Final, held: Option<Exception>, pending: bool, thrown: set<Exception>, guarded: bool,
                      tr: Trace)
    requires held.Some? ==> held.value in thrown
    ensures var o := ExecFinal(f, held, pending, guarded, tr).1;
      o.Raised? ==> o.e in MayFinal(f, thrown) || (pending && held == Some(o.e))
    decreases f, 0
  {
    if f.Finally? {
      MayRaise(f.block, held, thrown, guarded, tr);
    }
  }

  /** No handler of a block with a `Finally` contains a throw that may leave it. */
  predicate KeepsFinally(s: Stmt, held: set<Exception>)
    decreases s, 1
  {
    match s
    case Then(s1, s2) => KeepsFinally(s1, held) && KeepsFinally(s2, held)
    case If(_, s1, s2) => KeepsFinally(s1, held) && KeepsFinally(s2, held)
    case Try(body, catches, final) =>
      var thrown := May(body, {});
      && KeepsFinally(body, {})
      && KeepsCatches(catches, thrown)
      && (final.Finally? ==> KeepsFinally(final.block, thrown) && MayCatches(catches, thrown) == {})
    case _ => true
  }

  predicate KeepsCatches(cs: Catches, thrown: set<Exception>)
    decreases cs, 0
  {
    cs.Catch? ==> (cs.e in thrown ==> KeepsFinally(cs.handler, {cs.e})) && KeepsCatches(cs.more, thrown - {cs.e})
  }

  /** In such a program no run skips a `Finally`, ... */
  lemma {:induction false} KeptNotSkipped(s: Stmt, held: Option<Exception>, bound: set<Exception>, guarded: bool,
                                          tr: Trace)
    requires KeepsFinally(s, bound) && (held.Some? ==> held.value in bound)
    ensures !Skips(s, held, guarded, tr)
    decreases s, 1
  {
    match s
    case Then(s1, s2) =>
      KeptNotSkipped(s1, held, bound, guarded, tr);
      KeptNotSkipped(s2, held, bound, guarded, Exec(s1, held, guarded, tr).0);
    case If(test, s1, s2) =>
      KeptNotSkipped(if test(tr) then s1 else s2, held, bound, guarded, tr);
    case Try(body, catches, final) =>
      var (t1, o1) := Exec(body, None, true, tr);
      KeptNotSkipped(body, None, {}, true, tr);
      MayRaise(body, None, {}, true, tr);
      if o1.Normal? {
        KeptFinal(final, None, May(body, {}), guarded, t1);
      } else if o1.Raised? {
        MayRaiseCatches(catches, o1.e, May(body, {}), guarded, t1);
        KeptCatches(catches, o1.e, May(body, {}), guarded, t1);
        var r := ExecCatches(catches, o1.e, guarded, t1);
        KeptFinal(final, Some(o1.e), May(body, {}), guarded, if r.None? then t1 else r.value.0);
      }
    case _ =>
  }

  lemma {:induction false} KeptCatches(cs: Catches, e: Exception, thrown: set<Exception>, guarded: bool, tr: Trace)
    requires KeepsCatches(cs, thrown) && e in thrown
    ensures !SkipsCatches(cs, e, guarded, tr)
    decreases cs, 0
  {
    if cs.Catch? {
      if cs.e == e {
        KeptNotSkipped(cs.handler, Some(e), {e}, guarded, tr);
      } else {
        KeptCatches(cs.more, e, thrown - {cs.e}, guarded, tr);
      }
    }
  }

  lemma KeptFinal(f: Final, held: Option<Exception>, thrown: set<Exception>, guarded: bool, tr: Trace)
    requires (f.Finally? ==> KeepsFinally(f.block, thrown)) && (held.Some? ==> held.value in thrown)
    ensures !SkipsFinal(f, held, guarded, tr)
    decreases f, 0
  {
    if f.Finally? {
      KeptNotSkipped(f.block, held, thrown, guarded, tr);
    }
  }

  /** ... so that the machine gives it its customary meaning. */
  lemma KeptIsIdeal(s: Stmt) returns (n: nat)
    requires KeepsFinally(s, {})
    ensures forall m: nat | n <= m :: Run(Start(s), m) == Result(Ideal(s, None, false, []))
  {
    KeptNotSkipped(s, None, {}, false, []);
    IdealUnlessSkipped(s, None, false, []);
    n := ProgramMeaning(s);
  }

  /** The smallest program with a skipped `Finally`: a handler that throws to an enclosing block. */
  lemma SkippedExample()
    ensures var inner := Try(Throw(1, true), Catch(1, Throw(2, true), NoCatch), Finally(Act(7)));
      var s := Try(inner, Catch(2, Skip, NoCatch), NoFinally);
      && WellFormed(s, false)
      && Exec(s, None, false, []) == ([], Normal)
      && Ideal(s, None, false, []) == ([Did(7)], Normal)
  {
    var inner := Try(Throw(1, true), Catch(1, Throw(2, true), NoCatch), Finally(Act(7)));
    assert ExecCatches(inner.catches, 1, true, []) == Some(([], Raised(2)));
    assert Exec(inner, None, true, []) == ([], Raised(2));
    assert IdealCatches(inner.catches, 1, true, []) == Some(([], Raised(2)));
    var nothing: Trace := [];
    assert nothing + [Did(7)] == [Did(7)];
    assert Ideal(Act(7), None, true, []) == ([Did(7)], Normal);
    assert IdealFinal(inner.final, Some(1), Some(2), true, []) == ([Did(7)], Raised(2));
    assert Ideal(inner, None, true, []) == ([Did(7)], Raised(2));
  }

  // ----- The thread

  /** The thread's own variables, assigned by the macros and by `ntyExceptionThrow`. */
  class Thread {
    var rest: Rest
    var blocks: seq<Block>
    var top: Option<nat>
    var trace: Trace
    var faulted: bool

    constructor (s: Stmt)
      ensures View() == Start(s)
    {
      rest, blocks, top, trace, faulted := Do(Expand(s), Done), [], None, [], false;
    }

    ghost function View(): State
      reads this
    {
      if faulted then Fault else State(rest, blocks, top, trace)
    }

    /** `ntyExceptionThrow`. */
    method Throw(e: Exception, cause: bool)
      requires !faulted
      modifies this
      ensures View() == DoThrow(old(View()), old(rest), e, cause)
    {
      if top.None? {
        trace := trace + [Logged(e, cause)];
        return;
      }
      var frame := top.value;
      if frame >= |blocks| || blocks[frame].env.None? || !Once(blocks, frame + 1) {
        faulted := true;
        return;
      }
      var env := blocks[frame].env.value;
      blocks := blocks[frame := blocks[frame].(exception := Some(e))];
      top := blocks[frame].prev;
      blocks := blocks[..frame] + [blocks[frame].(flag := Thrown, pops := blocks[frame].pops + 1)];
      rest := env;
    }

    /** `ntyExceptionPopStack`. */
    method Pop()
      requires !faulted
      modifies this
      ensures View() == if old(top.None? || top.value >= |blocks|) then Fault
                        else Popped(old(View()), old(rest), old(top.value))
    {
      if top.None? || top.value >= |blocks| {
        faulted := true;
      } else {
        var frame := top.value;
        blocks := blocks[frame := blocks[frame].(pops := blocks[frame].pops + 1)];
        top := blocks[frame].prev;
      }
    }

    /** Runs the next piece of the expansion. */
    method StepOnce()
      modifies this
      ensures View() == Step(old(View()))
    {
      if faulted || rest.Done? {
        return;
      }
      var c := rest.code;
      rest := rest.rest;
      match c
      case Empty =>
      case DoAct(a) => trace := trace + [Did(a)];
      case Seq(c1, c2) => rest := Do(c1, Do(c2, rest));
      case Branch(cond, c1, c2) =>
        if !cond.Test? && blocks == [] {
          faulted := true;
        } else {
          var yes := match cond
            case Test(test) => test(trace)
            case FlagIs(f) => Last(blocks).flag == f
            case FrameHolds(e) => Last(blocks).exception == Some(e);
          rest := Do(if yes then c1 else c2, rest);
        }
      case CallThrow(e, cause) => Throw(e, cause);
      case OpenBlock =>
        blocks, top := blocks + [Block(Entered, None, top, None, 0)], Some(|blocks|);
      case _ =>
        if blocks == [] {
          faulted := true;
        } else {
          InBlock(c);
        }
    }

    /** Runs to the end: the thread has done exactly what the program means, with no block open and no frame
        left, or it has faulted where the meaning is broken. */
    method RunAll(ghost s: Stmt)
      requires View() == Start(s)
      modifies this
      ensures View() == Result(Exec(s, None, false, []))
    {
      ghost var n := ProgramMeaning(s);
      ghost var i := 0;
      while !faulted && !rest.Done?
        invariant i <= n && View() == Run(Start(s), i)
        decreases n - i
      {
        RunAdd(Start(s), i, 1);
        After(View(), Step(View()), 0);
        StepOnce();
        i := i + 1;
      }
      RunAdd(Start(s), i, n - i);
      FinalStays(View(), n - i);
    }

    /** The pieces that use the locals of the innermost block. */
    method InBlock(c: Code)
      requires !faulted && blocks != []
      modifies this
      ensures View() == StepInBlock(c, old(rest), old(View()))
    {
      var b, outer := Last(blocks), blocks[..|blocks| - 1];
      match c
      case CallReThrow =>
        if b.exception.None? {
          faulted := true;
        } else {
          Throw(b.exception.value, false);
        }
      case SetJmp => blocks := outer + [b.(flag := Entered, env := Some(rest))];
      case PopStack => Pop();
      case SetFlag(f) => blocks := outer + [b.(flag := f)];
      case CloseBlock =>
        if b.pops != 1 {
          faulted := true;
        } else {
          blocks := outer;
        }
      case _ => faulted := true;
    }
  }
}
