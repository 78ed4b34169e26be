/**
 * The stackless coroutine macros (include/ioring/coroutine.hpp). A body
 * enclosed in `IORING_CORO_REENTER` is a flat program: plain code, yield
 * sites (`IORING_CORO_YIELD stmt;` on source line `site`) and the jumps that
 * its `for`/`if` statements compile to. One call of the enclosing function
 * is one invocation: it dispatches on the stored state, runs until the
 * second yield site it reaches, and leaves.
 */
module Coroutine {

  /** The statement after `yield`: an asynchronous call, or `break`. */
  datatype Stmt = Submit(op: nat) | Break

  /** One step of a body. */
  datatype Instr =
    | Code(line: nat)                // a statement without yield
    | Yield(site: nat, stmt: Stmt)   // `case site: while (...) if (...) {...} else stmt`
    | Jump(target: nat)              // an unconditional branch of a loop
    | JumpIf(cond: nat, target: nat) // a branch taken when `cond` holds in this invocation

  /**
   * What an invocation does that can be seen from outside. `Submitted`
   * records the state stored when the call was made: the handler copy that
   * the call receives carries that state.
   */
  datatype Event = Ran(line: nat) | Submitted(op: nat, state: nat)

  /** How an invocation ends. */
  datatype Exit =
    | Suspended  // `__coro_out = 1; goto __coro_begin`
    | Finished   // control falls off the end of the body
    | NoCase     // the switch has no case for the stored state
    | OutOfFuel  // the step bound ran out: the invocation had not ended

  /** The stored state afterwards, the events in order, and how it ended. */
  datatype Outcome = Outcome(state: nat, trace: seq<Event>, exit: Exit)

  /**
   * `AsWritten` follows the macros; `Intended` skips only the statement of
   * the site it resumes at, and treats later arrivals at that site as new
   * yields.
   */
  datatype Mode = AsWritten | Intended

  /** The events of a yield site's statement. */
  function StmtEvents(s: Stmt, site: nat): seq<Event>
  {
    match s
    case Submit(op) => [Submitted(op, site)]
    case Break => []
  }

  predicate IsSite(body: seq<Instr>, site: nat)
  {
    exists i :: 0 <= i < |body| && body[i].Yield? && body[i].site == site
  }

  /** Site ids are positive source lines, one site per line. */
  predicate WellFormed(body: seq<Instr>)
  {
    && (forall i :: 0 <= i < |body| && body[i].Yield? ==> body[i].site > 0)
    && (forall i, j :: 0 <= i < j < |body| && body[i].Yield? && body[j].Yield? ==> body[i].site != body[j].site)
  }

  /** The first index at or after `from` whose case label is `site`, or `|body|`. */
  function CaseFrom(body: seq<Instr>, site: nat, from: nat): (p: nat)
    requires from <= |body|
    ensures from <= p <= |body|
    ensures p < |body| ==> body[p].Yield? && body[p].site == site
    ensures forall i :: from <= i < p ==> !(body[i].Yield? && body[i].site == site)
    decreases |body| - from
  {
    if from == |body| then |body|
    else if body[from].Yield? && body[from].site == site then from
    else CaseFrom(body, site, from + 1)
  }

  /** `switch (*__current_state)`: where `case site:` is, `|body|` when there is none. */
  function CaseOf(body: seq<Instr>, site: nat): (p: nat)
    ensures p <= |body|
    ensures p < |body| ==> body[p].Yield? && body[p].site == site
    ensures p == |body| <==> !IsSite(body, site)
  {
    CaseFrom(body, site, 0)
  }

  /**
   * The rest of one invocation from instruction `pc`, with `cur` the
   * stored state, `y` the `__coro_yield` counter and `acc` the events so
   * far; each step costs one unit of `fuel`.
   */
  function Exec(mode: Mode, body: seq<Instr>, pc: nat, cur: nat, y: nat, truths: set<nat>,
                fuel: nat, acc: seq<Event>): (o: Outcome)
    ensures acc <= o.trace
    ensures o.exit != NoCase
    decreases fuel
  {
    if pc >= |body| then Outcome(cur, acc, Finished)
    else if fuel == 0 then Outcome(cur, acc, OutOfFuel)
    else match body[pc]
      case Code(l) => Exec(mode, body, pc + 1, cur, y, truths, fuel - 1, acc + [Ran(l)])
      case Jump(t) => Exec(mode, body, t, cur, y, truths, fuel - 1, acc)
      case JumpIf(c, t) =>
        Exec(mode, body, if c in truths then t else pc + 1, cur, y, truths, fuel - 1, acc)
      case Yield(site, s) =>
        if mode == AsWritten && cur == site then
          // the guard `*__current_state != __LINE__` is false: step over the site
          Exec(mode, body, pc + 1, cur, y, truths, fuel - 1, acc)
        else if y != 0 then Outcome(site, acc, Suspended)
        else Exec(mode, body, pc + 1, site, y + 1, truths, fuel - 1, acc + StmtEvents(s, site))
  }

  /**
   * One invocation from stored state `state`: from the top when it is 0,
   * from the case label of `state` otherwise.
   */
  function Invoke(mode: Mode, body: seq<Instr>, state: nat, truths: set<nat>, fuel: nat): (o: Outcome)
    ensures o.exit == NoCase <==> state != 0 && !IsSite(body, state)
    ensures o.exit == NoCase ==> o.state == state && o.trace == []
  {
    if state == 0 then Exec(mode, body, 0, 0, 0, truths, fuel, [])
    else
      var p := CaseOf(body, state);
      if p == |body| then Outcome(state, [], NoCase)
      else if mode == AsWritten then Exec(mode, body, p, state, 0, truths, fuel, [])
      else if fuel == 0 then Outcome(state, [], OutOfFuel)
      else Exec(mode, body, p + 1, state, 0, truths, fuel - 1, [])
  }

  /** `struct coroutine`. */
  class Coroutine {
    /** `__state`: 0 before the first yield, afterwards the line of the last yield site reached. */
    var state: nat

    /** `unsigned __state = 0`. */
    constructor ()
      ensures state == 0
    {
      state := 0;
    }

    /**
     * `reenter(this) { body }` with the condition values of this call in
     * `truths`, bounded by `fuel` steps.
     */
    method Reenter(body: seq<Instr>, truths: set<nat>, fuel: nat) returns (trace: seq<Event>, exit: Exit)
      modifies this
      ensures Outcome(state, trace, exit) == Invoke(AsWritten, body, old(state), truths, fuel)
    {
      ghost var goal := Invoke(AsWritten, body, state, truths, fuel);
      var coroYield: nat := 0;
      trace := [];
      var pc: nat := 0;
      if state != 0 {
        // switch (*__current_state)
        pc := CaseOf(body, state);
        if pc == |body| {
          exit := NoCase;
          return;
        }
      }
      var f := fuel;
      while pc < |body|
        invariant Exec(AsWritten, body, pc, state, coroYield, truths, f, trace) == goal
        decreases f
      {
        if f == 0 {
          exit := OutOfFuel;
          return;
        }
        match body[pc] {
          case Code(l) =>
            trace := trace + [Ran(l)];
            pc := pc + 1;
          case Jump(t) =>
            pc := t;
          case JumpIf(c, t) =>
            pc := if c in truths then t else pc + 1;
          case Yield(site, s) =>
            if state == site {
              pc := pc + 1;
            } else {
              state := site;
              var first := coroYield == 0;
              coroYield := coroYield + 1;
              if !first {
                // __coro_out = 1; goto __coro_begin
                exit := Suspended;
                return;
              }
              trace := trace + StmtEvents(s, site);
              pc := pc + 1;
            }
        }
        f := f - 1;
      }
      exit := Finished;
    }
  }

  /** How many calls `es` records. */
  function Submissions(es: seq<Event>): nat
  {
    if es == [] then 0 else (if es[0].Submitted? then 1 else 0) + Submissions(es[1..])
  }

  lemma {:induction false} SubmissionsOfConcat(a: seq<Event>, b: seq<Event>)
    ensures Submissions(a + b) == Submissions(a) + Submissions(b)
  {
    if a == [] {
      assert a + b == b;
    } else {
      assert (a + b)[0] == a[0];
      assert (a + b)[1..] == a[1..] + b;
      SubmissionsOfConcat(a[1..], b);
    }
  }

  lemma StmtEventsCount(s: Stmt, site: nat)
    ensures Submissions(StmtEvents(s, site)) <= 1
  {
    if s.Submit? {
      assert StmtEvents(s, site)[1..] == [];
    }
  }

  /**
   * The rest of an invocation adds at most one call, and none once a
   * site's statement has run.
   */
  lemma {:induction false} ExecSubmitsAtMostOnce(mode: Mode, body: seq<Instr>, pc: nat, cur: nat, y: nat,
                                                 truths: set<nat>, fuel: nat, acc: seq<Event>)
    ensures Submissions(Exec(mode, body, pc, cur, y, truths, fuel, acc).trace)
         <= Submissions(acc) + (if y == 0 then 1 else 0)
    decreases fuel
  {
    if pc < |body| && fuel > 0 {
      match body[pc]
      case Code(l) =>
        assert [Ran(l)][1..] == [];
        SubmissionsOfConcat(acc, [Ran(l)]);
        ExecSubmitsAtMostOnce(mode, body, pc + 1, cur, y, truths, fuel - 1, acc + [Ran(l)]);
      case Jump(t) =>
        ExecSubmitsAtMostOnce(mode, body, t, cur, y, truths, fuel - 1, acc);
      case JumpIf(c, t) =>
        ExecSubmitsAtMostOnce(mode, body, if c in truths then t else pc + 1, cur, y, truths, fuel - 1, acc);
      case Yield(site, s) =>
        if mode == AsWritten && cur == site {
          ExecSubmitsAtMostOnce(mode, body, pc + 1, cur, y, truths, fuel - 1, acc);
        } else if y == 0 {
          StmtEventsCount(s, site);
          SubmissionsOfConcat(acc, StmtEvents(s, site));
          ExecSubmitsAtMostOnce(mode, body, pc + 1, site, y + 1, truths, fuel - 1, acc + StmtEvents(s, site));
        }
    }
  }

  /** Each invocation starts at most one asynchronous call, in either mode. */
  lemma AtMostOneSubmission(mode: Mode, body: seq<Instr>, state: nat, truths: set<nat>, fuel: nat)
    ensures Submissions(Invoke(mode, body, state, truths, fuel).trace) <= 1
  {
    if state == 0 {
      ExecSubmitsAtMostOnce(mode, body, 0, 0, 0, truths, fuel, []);
    } else {
      var p := CaseOf(body, state);
      if p < |body| && mode == AsWritten {
        ExecSubmitsAtMostOnce(mode, body, p, state, 0, truths, fuel, []);
      } else if p < |body| && fuel > 0 {
        ExecSubmitsAtMostOnce(mode, body, p + 1, state, 0, truths, fuel - 1, []);
      }
    }
  }

  /**
   * The stored state changes only at yield sites: afterwards it is the
   * state the rest of the invocation started with or the id of a site of
   * the body; a suspension always stores the id of the site that suspended.
   */
  lemma {:induction false} ExecStateIsSite(mode: Mode, body: seq<Instr>, pc: nat, cur: nat, y: nat,
                                           truths: set<nat>, fuel: nat, acc: seq<Event>)
    ensures var o := Exec(mode, body, pc, cur, y, truths, fuel, acc);
      && (o.state == cur || IsSite(body, o.state))
      && (o.exit == Suspended ==> IsSite(body, o.state))
    decreases fuel
  {
    if pc < |body| && fuel > 0 {
      match body[pc]
      case Code(l) =>
        ExecStateIsSite(mode, body, pc + 1, cur, y, truths, fuel - 1, acc + [Ran(l)]);
      case Jump(t) =>
        ExecStateIsSite(mode, body, t, cur, y, truths, fuel - 1, acc);
      case JumpIf(c, t) =>
        ExecStateIsSite(mode, body, if c in truths then t else pc + 1, cur, y, truths, fuel - 1, acc);
      case Yield(site, s) =>
        assert IsSite(body, site);
        if mode == AsWritten && cur == site {
          ExecStateIsSite(mode, body, pc + 1, cur, y, truths, fuel - 1, acc);
        } else if y == 0 {
          ExecStateIsSite(mode, body, pc + 1, site, y + 1, truths, fuel - 1, acc + StmtEvents(s, site));
        }
    }
  }

  /**
   * After an invocation the state is the one before or a site's id; in a
   * well-formed body it is never 0 again once it was not 0, and a
   * suspension stores a positive id.
   */
  lemma StateOnlyAtSites(mode: Mode, body: seq<Instr>, state: nat, truths: set<nat>, fuel: nat)
    requires WellFormed(body)
    ensures var o := Invoke(mode, body, state, truths, fuel);
      && (o.state == state || IsSite(body, o.state))
      && (state != 0 ==> o.state != 0)
      && (o.exit == Suspended ==> o.state > 0)
  {
    var o := Invoke(mode, body, state, truths, fuel);
    if state == 0 {
      ExecStateIsSite(mode, body, 0, 0, 0, truths, fuel, []);
    } else {
      var p := CaseOf(body, state);
      if p < |body| && mode == AsWritten {
        ExecStateIsSite(mode, body, p, state, 0, truths, fuel, []);
      } else if p < |body| && fuel > 0 {
        ExecStateIsSite(mode, body, p + 1, state, 0, truths, fuel - 1, []);
      }
    }
    if IsSite(body, o.state) {
      var i :| 0 <= i < |body| && body[i].Yield? && body[i].site == o.state;
    }
  }

  /**
   * Resuming at a site steps over that site's statement: the invocation
   * goes on after the site with the state unchanged and nothing run.
   */
  lemma ResumeSkipsStatement(body: seq<Instr>, state: nat, truths: set<nat>, fuel: nat)
    requires state != 0 && IsSite(body, state) && fuel > 0
    ensures Invoke(AsWritten, body, state, truths, fuel)
         == Exec(AsWritten, body, CaseOf(body, state) + 1, state, 0, truths, fuel - 1, [])
  {
  }

  /**
   * The first site reached stores its id, then runs its statement and goes
   * on; the next site reached stores its id and leaves without running its
   * statement.
   */
  lemma FirstSiteRunsSecondSuspends(body: seq<Instr>, pc: nat, cur: nat, truths: set<nat>, fuel: nat,
                                    acc: seq<Event>)
    requires pc < |body| && body[pc].Yield? && body[pc].site != cur && fuel > 0
    ensures var site := body[pc].site;
      && Exec(AsWritten, body, pc, cur, 0, truths, fuel, acc)
         == Exec(AsWritten, body, pc + 1, site, 1, truths, fuel - 1, acc + StmtEvents(body[pc].stmt, site))
      && Exec(AsWritten, body, pc, cur, 1, truths, fuel, acc) == Outcome(site, acc, Suspended)
  {
  }

  /** A body made of one site inside an endless loop: `for (;;) yield call;`. */
  function SingleYieldLoop(site: nat, op: nat): seq<Instr>
  {
    [Yield(site, Submit(op)), Jump(0)]
  }

  lemma {:induction false} SingleYieldLoopSpinsFrom(site: nat, op: nat, pc: nat, truths: set<nat>, fuel: nat,
                                                    y: nat, acc: seq<Event>)
    requires pc <= 1
    ensures Exec(AsWritten, SingleYieldLoop(site, op), pc, site, y, truths, fuel, acc) == Outcome(site, acc, OutOfFuel)
    decreases fuel
  {
    if fuel > 0 {
      SingleYieldLoopSpinsFrom(site, op, 1 - pc, truths, fuel - 1, y, acc);
    }
  }

  /**
   * As written, that loop never suspends: resumed at its site it steps over
   * the site on every pass, and started fresh it makes its one call and
   * then does the same. No bound on the steps is enough.
   */
  lemma SingleYieldLoopSpins(site: nat, op: nat, truths: set<nat>, fuel: nat)
    requires site > 0
    ensures Invoke(AsWritten, SingleYieldLoop(site, op), site, truths, fuel) == Outcome(site, [], OutOfFuel)
    ensures fuel > 0 ==>
      Invoke(AsWritten, SingleYieldLoop(site, op), 0, truths, fuel) == Outcome(site, [Submitted(op, site)], OutOfFuel)
  {
    var body := SingleYieldLoop(site, op);
    SingleYieldLoopSpinsFrom(site, op, 0, truths, fuel, 0, []);
    if fuel > 0 {
      assert body[0] == Yield(site, Submit(op));
      assert [] + StmtEvents(Submit(op), site) == [Submitted(op, site)];
      assert Exec(AsWritten, body, 0, 0, 0, truths, fuel, [])
          == Exec(AsWritten, body, 1, site, 1, truths, fuel - 1, [Submitted(op, site)]);
      SingleYieldLoopSpinsFrom(site, op, 1, truths, fuel - 1, 1, [Submitted(op, site)]);
    }
  }

  /**
   * The evident intent: each invocation of the loop makes one call and
   * suspends at the site, whether resumed or started fresh.
   */
  lemma SingleYieldLoopIntended(site: nat, op: nat, truths: set<nat>, fuel: nat)
    requires site > 0 && fuel >= 5
    ensures Invoke(Intended, SingleYieldLoop(site, op), site, truths, fuel)
         == Outcome(site, [Submitted(op, site)], Suspended)
    ensures Invoke(Intended, SingleYieldLoop(site, op), 0, truths, fuel)
         == Outcome(site, [Submitted(op, site)], Suspended)
  {
    var body := SingleYieldLoop(site, op);
    var sub := [Submitted(op, site)];
    assert body[0] == Yield(site, Submit(op)) && body[1] == Jump(0);
    assert [] + StmtEvents(Submit(op), site) == sub;
    // from the top of the loop with no statement run yet
    assert Exec(Intended, body, 0, site, 0, truths, fuel - 2, [])
        == Exec(Intended, body, 1, site, 1, truths, fuel - 3, sub);
    assert Exec(Intended, body, 1, site, 1, truths, fuel - 3, sub)
        == Exec(Intended, body, 0, site, 1, truths, fuel - 4, sub);
    assert Exec(Intended, body, 0, site, 1, truths, fuel - 4, sub) == Outcome(site, sub, Suspended);
    assert Invoke(Intended, body, site, truths, fuel) == Exec(Intended, body, 1, site, 0, truths, fuel - 1, []);
    // started fresh
    assert Exec(Intended, body, 0, 0, 0, truths, fuel, [])
        == Exec(Intended, body, 1, site, 1, truths, fuel - 1, sub);
    assert Exec(Intended, body, 1, site, 1, truths, fuel - 1, sub)
        == Exec(Intended, body, 0, site, 1, truths, fuel - 2, sub);
  }

  // The calls of the echo client's body (examples/echo_client.cpp:39-59).
  const CONNECT: nat := 1
  const READ_IN: nat := 2
  const WRITE_SOCK: nat := 3
  const READ_SOCK: nat := 4
  const WRITE_OUT: nat := 5
  /** The condition `bytes != 0` of that body. */
  const HAS_BYTES: nat := 0

  /**
   * The echo client's body, by source line: connect, then a loop reading
   * stdin, leaving with `yield break` when nothing was read, and otherwise
   * writing to the socket, reading the reply and writing it to stdout.
   */
  function EchoBody(): (body: seq<Instr>)
    ensures WellFormed(body)
  {
    [ Yield(41, Submit(CONNECT)),
      Yield(45, Submit(READ_IN)),
      JumpIf(HAS_BYTES, 5),
      Code(48),
      Yield(49, Break),
      Code(51),
      Yield(52, Submit(WRITE_SOCK)),
      Yield(54, Submit(READ_SOCK)),
      Yield(56, Submit(WRITE_OUT)),
      Jump(1),
      Code(58) ]
  }

  /** Constructed fresh, the client starts the connect and stops at the read. */
  lemma EchoFirstCall()
    ensures Invoke(AsWritten, EchoBody(), 0, {}, 10) == Outcome(45, [Submitted(CONNECT, 41)], Suspended)
  {
  }

  /**
   * Resumed by the connect completion, whose byte count is 0: the read is
   * started with a handler copy holding state 45; the test of `bytes` sees
   * the connect's count, so line 48 runs and the invocation stops at
   * `yield break`.
   */
  lemma EchoAfterConnect()
    ensures Invoke(AsWritten, EchoBody(), 41, {}, 10)
         == Outcome(49, [Submitted(READ_IN, 45), Ran(48)], Suspended)
  {
  }

  /**
   * Resumed at the stdin read with bytes read: line 51 runs, the socket
   * write is started, and the invocation stops at the socket read.
   */
  lemma EchoAfterRead()
    ensures Invoke(AsWritten, EchoBody(), 45, {HAS_BYTES}, 10)
         == Outcome(54, [Ran(51), Submitted(WRITE_SOCK, 52)], Suspended)
  {
  }

  /**
   * Resumed at the stdin read with 0 bytes: `yield break` is the first site
   * reached, so its `break` runs and leaves only the macro's `while`: the
   * body goes on to line 51 and stops at line 52 without starting a call,
   * never reaching line 58.
   */
  lemma EchoBreakFallsThrough()
    ensures Invoke(AsWritten, EchoBody(), 45, {}, 10) == Outcome(52, [Ran(48), Ran(51)], Suspended)
  {
  }
}
