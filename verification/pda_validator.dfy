/** The contract-structure validator: a deterministic pushdown automaton over section
    symbols, with a fixed transition table, a stack of open-block markers and an action log. */
module PDA {
  import opened Symbols

  /** The automaton's states, one per section plus the start state. */
  datatype State =
    | QStart | QHeader | QRole | QTerm | QScope | QPayBase | QBenefits | QLegal | QTermClause | QAccept

  /** Markers for the blocks a transition opens and a later one must close. */
  datatype Marker = RoleMarker | PayMarker

  /** What a transition does to the stack. */
  datatype Action = Keep | Push(marker: Marker) | Pop(marker: Marker)

  /** The target of a transition and its stack action. */
  datatype Move = Move(next: State, action: Action)

  /** One entry of the validator's log: the two stack actions, and the five ways to reject. */
  datatype LogEntry =
    | Pushed(marker: Marker)
    | Popped(marker: Marker)
    | Unexpected(token: Symbol, state: State, expected: set<Symbol>)
    | DependencyError(wanted: Marker, stack: seq<Marker>)
    | Incomplete(state: State)
    | Unresolved(stack: seq<Marker>)
    | EmptyStream

  // ---------------------------------------------------------------- the transition table

  /** The transition table: the move for a token in a state, if there is one. */
  function Transition(q: State, token: Symbol): Option<Move>
  {
    match (q, token)
    case (QStart, H) => Some(Move(QHeader, Keep))
    case (QHeader, H) => Some(Move(QHeader, Keep))
    case (QHeader, R) => Some(Move(QRole, Push(RoleMarker)))
    case (QRole, R) => Some(Move(QRole, Keep))
    case (QRole, D) => Some(Move(QTerm, Keep))
    case (QTerm, D) => Some(Move(QTerm, Keep))
    case (QTerm, S) => Some(Move(QScope, Pop(RoleMarker)))
    case (QScope, S) => Some(Move(QScope, Keep))
    case (QScope, C) => Some(Move(QPayBase, Push(PayMarker)))
    case (QPayBase, C) => Some(Move(QPayBase, Keep))
    case (QPayBase, B) => Some(Move(QBenefits, Pop(PayMarker)))
    case (QBenefits, B) => Some(Move(QBenefits, Keep))
    case (QBenefits, F) => Some(Move(QLegal, Keep))
    case (QLegal, F) => Some(Move(QLegal, Keep))
    case (QLegal, T) => Some(Move(QTermClause, Keep))
    case (QTermClause, T) => Some(Move(QTermClause, Keep))
    case (QTermClause, X) => Some(Move(QAccept, Keep))
    case (QAccept, X) => Some(Move(QAccept, Keep))
    case _ => None
  }

  /** The tokens a state has a transition for, as listed in a rejection. */
  function Expected(q: State): (e: set<Symbol>)
    ensures forall s: Symbol :: s in e <==> Transition(q, s).Some?
  {
    match q
    case QStart => {H}
    case QHeader => {H, R}
    case QRole => {R, D}
    case QTerm => {D, S}
    case QScope => {S, C}
    case QPayBase => {C, B}
    case QBenefits => {B, F}
    case QLegal => {F, T}
    case QTermClause => {T, X}
    case QAccept => {X}
  }

  // ---------------------------------------------------------------- one token

  /** The automaton's configuration: current state and stack, top of stack last. */
  datatype Config = Config(state: State, stack: seq<Marker>)

  /** The outcome of one token: accepted or not, the configuration after it, and the log
      entries it wrote. */
  datatype StepResult = StepResult(ok: bool, next: Config, entries: seq<LogEntry>)

  /** process_token on a configuration. */
  function Step(c: Config, token: Symbol): (r: StepResult)
    // a token without a transition is rejected with one entry naming what was expected
    ensures Transition(c.state, token).None? ==>
      r == StepResult(false, c, [Unexpected(token, c.state, Expected(c.state))])
    // a rejected token changes neither state nor stack and writes exactly one entry
    ensures !r.ok ==> r.next == c && |r.entries| == 1
    // an accepted token moves to the table's target state
    ensures r.ok ==> Transition(c.state, token).Some? && r.next.state == Transition(c.state, token).value.next
    // a push puts its marker on top
    ensures Transition(c.state, token).Some? && Transition(c.state, token).value.action.Push? ==>
      var m := Transition(c.state, token).value.action.marker;
      r.ok && r.next.stack == c.stack + [m] && r.entries == [Pushed(m)]
    // a pop succeeds exactly when its marker is on top, and then removes just that marker;
    // otherwise it reports a dependency error
    ensures Transition(c.state, token).Some? && Transition(c.state, token).value.action.Pop? ==>
      var m := Transition(c.state, token).value.action.marker;
      && (r.ok <==> c.stack != [] && c.stack[|c.stack| - 1] == m)
      && (r.ok ==> c.stack == r.next.stack + [m] && r.entries == [Popped(m)])
      && (!r.ok ==> r.entries == [DependencyError(m, c.stack)])
    // a transition without a stack action leaves the stack and the log alone
    ensures Transition(c.state, token).Some? && Transition(c.state, token).value.action.Keep? ==>
      r.ok && r.next.stack == c.stack && r.entries == []
  {
    match Transition(c.state, token)
    case None => StepResult(false, c, [Unexpected(token, c.state, Expected(c.state))])
    case Some(Move(next, action)) =>
      match action
      case Keep => StepResult(true, Config(next, c.stack), [])
      case Push(m) => StepResult(true, Config(next, c.stack + [m]), [Pushed(m)])
      case Pop(m) =>
        if c.stack == [] || c.stack[|c.stack| - 1] != m then
          StepResult(false, c, [DependencyError(m, c.stack)])
        else
          StepResult(true, Config(next, c.stack[..|c.stack| - 1]), [Popped(m)])
  }

  // ---------------------------------------------------------------- a token stream

  /** The state of a validation run: still going or stopped at a rejection, the
      configuration, and the log so far. */
  datatype Run = Run(ok: bool, config: Config, log: seq<LogEntry>)

  /** The loop of validate over a stream, from a reset validator, stopping at the first
      rejected token. */
  function Process(tokens: seq<Symbol>): Run
  {
    if tokens == [] then Run(true, Config(QStart, []), [])
    else
      var prev := Process(tokens[..|tokens| - 1]);
      if !prev.ok then prev
      else
        var r := Step(prev.config, tokens[|tokens| - 1]);
        Run(r.ok, r.next, prev.log + r.entries)
  }

  /** validate: the verdict and the log it returns. */
  function Validation(tokens: seq<Symbol>): (result: (bool, seq<LogEntry>))
    ensures tokens == [] ==> result == (false, [EmptyStream])
    ensures result.0 <==> tokens != [] && Process(tokens) == Run(true, Config(QAccept, []), result.1)
  {
    if tokens == [] then (false, [EmptyStream])
    else
      var run := Process(tokens);
      if !run.ok then (false, run.log)
      else if run.config.state == QAccept && |run.config.stack| == 0 then (true, run.log)
      else if run.config.state != QAccept then (false, run.log + [Incomplete(run.config.state)])
      else (false, run.log + [Unresolved(run.config.stack)])
  }

  /** Once a token is rejected, the rest of the stream is never looked at. */
  lemma {:induction false} RejectionStops(tokens: seq<Symbol>, n: nat)
    requires n <= |tokens| && !Process(tokens[..n]).ok
    ensures Process(tokens) == Process(tokens[..n])
    decreases |tokens| - n
  {
    if n < |tokens| {
      assert tokens[..n + 1][..n] == tokens[..n];
      RejectionStops(tokens, n + 1);
    } else {
      assert tokens[..n] == tokens;
    }
  }

  /** A stream with a rejected prefix is rejected with that prefix's log. */
  lemma RejectedPrefix(tokens: seq<Symbol>, n: nat)
    requires 0 < n <= |tokens| && !Process(tokens[..n]).ok
    ensures Process(tokens) == Process(tokens[..n])
    ensures Validation(tokens) == (false, Process(tokens[..n]).log)
  {
    RejectionStops(tokens, n);
  }

  // ---------------------------------------------------------------- the validator object

  /** PDAValidator: the stack, the current state and the log are updated in place. */
  class PDAValidator {
    var stack: seq<Marker>
    var currentState: State
    var log: seq<LogEntry>

    constructor ()
      ensures stack == [] && currentState == QStart && log == []
    {
      stack := [];
      currentState := QStart;
      log := [];
    }

    /** process_token: checks the token against the table, applies the stack action and
        moves on, or logs why it cannot. */
    method ProcessToken(token: Symbol) returns (ok: bool)
      modifies this
      ensures var r := Step(Config(old(currentState), old(stack)), token);
        ok == r.ok && Config(currentState, stack) == r.next && log == old(log) + r.entries
    {
      var move := Transition(currentState, token);
      if move.None? {
        log := log + [Unexpected(token, currentState, Expected(currentState))];
        return false;
      }
      match move.value.action {
        case Keep =>
        case Push(m) =>
          stack := stack + [m];
          log := log + [Pushed(m)];
        case Pop(m) =>
          if stack == [] || stack[|stack| - 1] != m {
            log := log + [DependencyError(m, stack)];
            return false;
          }
          stack := stack[..|stack| - 1];
          log := log + [Popped(m)];
      }
      currentState := move.value.next;
      ok := true;
    }

    /** validate: resets the validator, runs the stream and checks the final configuration.
        The verdict and the log depend on the stream alone. */
    method Validate(tokens: seq<Symbol>) returns (accepted: bool, trace: seq<LogEntry>)
      modifies this
      ensures (accepted, trace) == Validation(tokens)
      ensures tokens == [] ==> Config(currentState, stack) == Config(QStart, []) && log == []
      ensures tokens != [] ==> Config(currentState, stack) == Process(tokens).config && log == trace
    {
      currentState := QStart;
      stack := [];
      log := [];
      if tokens == [] {
        return false, [EmptyStream];
      }
      var i := 0;
      while i < |tokens|
        invariant 0 <= i <= |tokens|
        invariant Process(tokens[..i]) == Run(true, Config(currentState, stack), log)
      {
        assert tokens[..i + 1][..i] == tokens[..i];
        var ok := ProcessToken(tokens[i]);
        assert Process(tokens[..i + 1]) == Run(ok, Config(currentState, stack), log);
        if !ok {
          RejectedPrefix(tokens, i + 1);
          return false, log;
        }
        i := i + 1;
      }
      assert tokens[..i] == tokens;
      assert Process(tokens) == Run(true, Config(currentState, stack), log);
      if currentState == QAccept && |stack| == 0 {
        return true, log;
      } else if currentState != QAccept {
        log := log + [Incomplete(currentState)];
        return false, log;
      } else if |stack| > 0 {
        log := log + [Unresolved(stack)];
        return false, log;
      }
    }
  }
}
