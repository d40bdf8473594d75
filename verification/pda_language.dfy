/** What the validator accepts, and why its stack checks never fire on a run from the
    start state. */
module PDALanguage {
  import opened Symbols
  import opened PDA

  // ---------------------------------------------------------------- the table without the stack

  /** The state the table alone reaches after a stream, or None when some token has no
      transition (the finite-state skeleton of the automaton). */
  function Reach(tokens: seq<Symbol>): Option<State>
  {
    if tokens == [] then Some(QStart)
    else match Reach(tokens[..|tokens| - 1])
      case None => None
      case Some(q) =>
        match Transition(q, tokens[|tokens| - 1])
        case None => None
        case Some(move) => Some(move.next)
  }

  /** The stack the automaton holds in each state: the role marker while the role and term
      sections are open, the pay marker while the pay section is open, nothing otherwise. */
  function StackFor(q: State): (st: seq<Marker>)
    ensures |st| <= 1
    ensures st != [] <==> q in {QRole, QTerm, QPayBase}
  {
    match q
    case QRole | QTerm => [RoleMarker]
    case QPayBase => [PayMarker]
    case _ => []
  }

  /** The log a run from the start state has written on reaching each state: a push and a
      pop for each block it has opened and closed. */
  function LogFor(q: State): seq<LogEntry>
  {
    match q
    case QStart | QHeader => []
    case QRole | QTerm => [Pushed(RoleMarker)]
    case QScope => [Pushed(RoleMarker), Popped(RoleMarker)]
    case QPayBase => [Pushed(RoleMarker), Popped(RoleMarker), Pushed(PayMarker)]
    case _ => [Pushed(RoleMarker), Popped(RoleMarker), Pushed(PayMarker), Popped(PayMarker)]
  }

  /** The log reports neither a failed pop nor a stack left open at the end. */
  predicate NoStackErrors(log: seq<LogEntry>)
  {
    forall i | 0 <= i < |log| :: !log[i].DependencyError? && !log[i].Unresolved?
  }

  /** Along every transition of the table, the stack of the source state becomes the stack
      of the target state under the transition's action, and every pop finds its marker on top. */
  lemma TableKeepsStack(q: State, token: Symbol)
    requires Transition(q, token).Some?
    ensures var move := Transition(q, token).value;
      match move.action
      case Keep => StackFor(move.next) == StackFor(q)
      case Push(m) => StackFor(move.next) == StackFor(q) + [m]
      case Pop(m) => StackFor(q) == StackFor(move.next) + [m]
  {
  }

  /** From a configuration whose stack matches its state, a token is accepted exactly when
      the table has a transition for it, every pop finds its marker, and the stack again
      matches the new state. */
  lemma StepKeepsStack(c: Config, token: Symbol)
    requires c.stack == StackFor(c.state)
    ensures Step(c, token).ok <==> Transition(c.state, token).Some?
    ensures Step(c, token).next.stack == StackFor(Step(c, token).next.state)
    ensures NoStackErrors(Step(c, token).entries)
  {
    var r := Step(c, token);
    if Transition(c.state, token).Some? {
      TableKeepsStack(c.state, token);
      assert r.ok;
    }
    assert forall i | 0 <= i < |r.entries| :: r.entries[i].Unexpected? || r.entries[i].Pushed? || r.entries[i].Popped?;
  }

  /** The log entries a stack action writes when it succeeds. */
  function ActionEntries(action: Action): seq<LogEntry>
  {
    match action
    case Keep => []
    case Push(m) => [Pushed(m)]
    case Pop(m) => [Popped(m)]
  }

  /** Along every transition of the table, the log of the source state followed by what the
      action writes is the log of the target state. */
  lemma TableExtendsLog(q: State, token: Symbol)
    requires Transition(q, token).Some?
    ensures LogFor(q) + ActionEntries(Transition(q, token).value.action)
      == LogFor(Transition(q, token).value.next)
  {
    match q
    case QHeader =>
      assert LogFor(QHeader) + [Pushed(RoleMarker)] == LogFor(QRole);
    case QTerm =>
      assert LogFor(QTerm) + [Popped(RoleMarker)] == LogFor(QScope);
    case QScope =>
      assert LogFor(QScope) + [Pushed(PayMarker)] == LogFor(QPayBase);
    case QPayBase =>
      assert LogFor(QPayBase) + [Popped(PayMarker)] == LogFor(QBenefits);
    case _ =>
  }

  /** From a configuration whose stack matches its state, an accepted token extends the log
      of the old state to the log of the new one. */
  lemma StepExtendsLog(c: Config, token: Symbol)
    requires c.stack == StackFor(c.state) && Step(c, token).ok
    ensures LogFor(c.state) + Step(c, token).entries == LogFor(Step(c, token).next.state)
  {
    TableExtendsLog(c.state, token);
    assert Step(c, token).entries == ActionEntries(Transition(c.state, token).value.action);
  }

  /** The table's move from an optional state. */
  function ReachNext(q: Option<State>, token: Symbol): Option<State>
  {
    match q
    case None => None
    case Some(p) =>
      match Transition(p, token)
      case None => None
      case Some(move) => Some(move.next)
  }

  /** A run follows the table when its stack is exactly the one its state calls for, it is
      still going exactly when the table has reached a state, and then it is in that state
      with the log of that state; a stopped run's last entry is the rejection; and the log
      reports no failed pop and no open stack. */
  predicate FollowsTable(run: Run, reach: Option<State>)
  {
    && run.config.stack == StackFor(run.config.state)
    && (run.ok <==> reach.Some?)
    && (run.ok ==> run.config.state == reach.value && run.log == LogFor(run.config.state))
    && (!run.ok ==> run.log != [] && run.log[|run.log| - 1].Unexpected?)
    && NoStackErrors(run.log)
  }

  /** One accepted token keeps a run on the table. */
  lemma StepFollowsTable(prev: Run, q: State, token: Symbol)
    requires prev.ok && FollowsTable(prev, Some(q))
    ensures var r := Step(prev.config, token);
      FollowsTable(Run(r.ok, r.next, prev.log + r.entries), ReachNext(Some(q), token))
  {
    var r := Step(prev.config, token);
    StepKeepsStack(prev.config, token);
    NoStackErrorsAppend(prev.log, r.entries);
    if r.ok {
      StepExtendsLog(prev.config, token);
    } else {
      assert r.entries == [Unexpected(token, q, Expected(q))];
    }
  }

  /** A log has no stack error exactly when neither of its two parts has one. */
  lemma NoStackErrorsAppend(a: seq<LogEntry>, b: seq<LogEntry>)
    ensures NoStackErrors(a + b) <==> NoStackErrors(a) && NoStackErrors(b)
  {
    if NoStackErrors(a) && NoStackErrors(b) {
      forall i | 0 <= i < |a + b| ensures !(a + b)[i].DependencyError? && !(a + b)[i].Unresolved? {
        if i >= |a| {
          assert (a + b)[i] == b[i - |a|];
        }
      }
    }
    if NoStackErrors(a + b) {
      forall i | 0 <= i < |a| ensures !a[i].DependencyError? && !a[i].Unresolved? {
        assert (a + b)[i] == a[i];
      }
      forall i | 0 <= i < |b| ensures !b[i].DependencyError? && !b[i].Unresolved? {
        assert (a + b)[|a| + i] == b[i];
      }
    }
  }

  /** The stack invariant: every run from the start state follows the table. */
  lemma {:induction false} RunFollowsTable(tokens: seq<Symbol>)
    ensures FollowsTable(Process(tokens), Reach(tokens))
  {
    if tokens != [] {
      var init := tokens[..|tokens| - 1];
      var token := tokens[|tokens| - 1];
      RunFollowsTable(init);
      var prev := Process(init);
      assert Reach(tokens) == ReachNext(Reach(init), token);
      if prev.ok {
        StepFollowsTable(prev, Reach(init).value, token);
      }
    }
  }

  /** validate accepts exactly when every token has a transition and the table ends in
      q_accept; the stack is then empty of itself. */
  lemma AcceptsWhenTableAccepts(tokens: seq<Symbol>)
    ensures Validation(tokens).0 <==> tokens != [] && Reach(tokens) == Some(QAccept)
  {
    RunFollowsTable(tokens);
  }

  /** The dependency-error and unresolved-dependency branches are unreachable: no log that
      validate returns contains either. */
  lemma NoStackErrorsReported(tokens: seq<Symbol>)
    ensures NoStackErrors(Validation(tokens).1)
  {
    if tokens != [] {
      RunFollowsTable(tokens);
      var log := Process(tokens).log;
      assert forall i | |log| <= i < |log| + 1 :: (log + [Incomplete(Process(tokens).config.state)])[i].Incomplete?;
    }
  }

  // ---------------------------------------------------------------- one state per section

  /** The state the automaton is in after a token of section s has been accepted. */
  function StateOf(s: Symbol): (q: State)
    ensures q != QStart
    ensures q == QAccept <==> s == X
  {
    match s
    case H => QHeader
    case R => QRole
    case D => QTerm
    case S => QScope
    case C => QPayBase
    case B => QBenefits
    case F => QLegal
    case T => QTermClause
    case X => QAccept
  }

  /** A token may follow another when it is of the same section or of the next one. */
  predicate Advances(a: Symbol, b: Symbol)
  {
    Rank(b) == Rank(a) || Rank(b) == Rank(a) + 1
  }

  /** After a token of section a, the table accepts b exactly when b stays in a's section or
      moves to the next one, and it then moves to b's state. */
  lemma TableFollowsRanks(a: Symbol, b: Symbol)
    ensures Transition(StateOf(a), b).Some? <==> Advances(a, b)
    ensures Transition(StateOf(a), b).Some? ==> Transition(StateOf(a), b).value.next == StateOf(b)
  {
  }

  /** From the start state only a header is accepted. */
  lemma StartNeedsHeader(b: Symbol)
    ensures Transition(QStart, b).Some? <==> b == H
    ensures Transition(QStart, b).Some? ==> Transition(QStart, b).value.next == StateOf(H)
  {
  }

  /** A token of the section the automaton is in is a self-loop: it is accepted and changes
      neither state, stack nor log. */
  lemma SelfLoopChangesNothing(c: Config, s: Symbol)
    requires c.state == StateOf(s)
    ensures Step(c, s) == StepResult(true, c, [])
  {
  }

  /** Every adjacent pair of the stream advances. */
  predicate Chain(tokens: seq<Symbol>)
  {
    forall i | 0 < i < |tokens| :: Advances(tokens[i - 1], tokens[i])
  }

  /** The language as a chain: starts with a header, ends with a signature, and each token
      stays in the section of the one before or moves to the next. */
  predicate InLanguage(tokens: seq<Symbol>)
  {
    |tokens| > 0 && tokens[0] == H && tokens[|tokens| - 1] == X && Chain(tokens)
  }

  /** The table runs a nonempty stream through exactly when it starts with a header and is a
      chain, and it ends in the state of the last token's section. */
  lemma {:induction false} ReachChain(tokens: seq<Symbol>)
    requires tokens != []
    ensures Reach(tokens).Some? <==> tokens[0] == H && Chain(tokens)
    ensures Reach(tokens).Some? ==> Reach(tokens).value == StateOf(tokens[|tokens| - 1])
  {
    var init := tokens[..|tokens| - 1];
    var last := tokens[|tokens| - 1];
    if init == [] {
      StartNeedsHeader(last);
    } else {
      ReachChain(init);
      TableFollowsRanks(init[|init| - 1], last);
      assert init + [last] == tokens;
      ChainSnoc(init, last);
    }
  }

  /** A stream extended by one token is a chain exactly when the stream is one and the
      token may follow its last. */
  lemma ChainSnoc(init: seq<Symbol>, last: Symbol)
    requires init != []
    ensures Chain(init + [last]) <==> Chain(init) && Advances(init[|init| - 1], last)
  {
    var tokens := init + [last];
    if Chain(init) && Advances(init[|init| - 1], last) {
      forall i | 0 < i < |tokens| ensures Advances(tokens[i - 1], tokens[i]) {
        if i < |tokens| - 1 {
          assert tokens[i - 1] == init[i - 1] && tokens[i] == init[i];
        }
      }
    }
    if Chain(tokens) {
      forall i | 0 < i < |init| ensures Advances(init[i - 1], init[i]) {
        assert init[i - 1] == tokens[i - 1] && init[i] == tokens[i];
      }
      assert Advances(tokens[|tokens| - 2], tokens[|tokens| - 1]);
    }
  }

  /** validate accepts exactly the streams of the language. */
  lemma AcceptsExactlyLanguage(tokens: seq<Symbol>)
    ensures Validation(tokens).0 <==> InLanguage(tokens)
  {
    AcceptsWhenTableAccepts(tokens);
    if tokens != [] {
      ReachChain(tokens);
    }
  }

  // ---------------------------------------------------------------- the language as blocks

  /** H+ R+ D+ S+ C+ B+ F+ T+ X+: the sections appear in canonical order, each at least once. */
  predicate SectionOrder(tokens: seq<Symbol>)
  {
    && (forall i, j | 0 <= i < j < |tokens| :: Rank(tokens[i]) <= Rank(tokens[j]))
    && forall s: Symbol :: s in tokens
  }

  /** Along a chain, ranks never go down. */
  lemma {:induction false} ChainSorted(tokens: seq<Symbol>, i: nat, j: nat)
    requires Chain(tokens) && i <= j < |tokens|
    ensures Rank(tokens[i]) <= Rank(tokens[j])
    decreases j - i
  {
    if i < j {
      ChainSorted(tokens, i, j - 1);
      assert Advances(tokens[j - 1], tokens[j]);
    }
  }

  /** Along a chain, no rank between the first token's and the k-th token's is skipped. */
  lemma {:induction false} ChainSkipsNoRank(tokens: seq<Symbol>, k: nat, n: nat)
    requires Chain(tokens) && k < |tokens| && Rank(tokens[0]) <= n <= Rank(tokens[k])
    ensures exists i :: 0 <= i <= k && Rank(tokens[i]) == n
  {
    if Rank(tokens[k]) == n {
    } else {
      assert Advances(tokens[k - 1], tokens[k]);
      ChainSkipsNoRank(tokens, k - 1, n);
    }
  }

  /** The chain form and the block form of the language agree. */
  lemma LanguageIsSectionOrder(tokens: seq<Symbol>)
    ensures InLanguage(tokens) <==> SectionOrder(tokens)
  {
    if InLanguage(tokens) {
      forall i, j | 0 <= i < j < |tokens| ensures Rank(tokens[i]) <= Rank(tokens[j]) {
        ChainSorted(tokens, i, j);
      }
      forall s: Symbol ensures s in tokens {
        ChainSkipsNoRank(tokens, |tokens| - 1, Rank(s));
        var i :| 0 <= i < |tokens| && Rank(tokens[i]) == Rank(s);
        RankInjective(tokens[i], s);
      }
    }
    if SectionOrder(tokens) {
      assert H in tokens && X in tokens;
      var h :| 0 <= h < |tokens| && tokens[h] == H;
      var x :| 0 <= x < |tokens| && tokens[x] == X;
      assert Rank(tokens[0]) <= Rank(tokens[h]);
      RankInjective(tokens[0], H);
      assert Rank(tokens[x]) <= Rank(tokens[|tokens| - 1]);
      RankInjective(tokens[|tokens| - 1], X);
      forall i | 0 < i < |tokens| ensures Advances(tokens[i - 1], tokens[i]) {
        var lo := Rank(tokens[i - 1]);
        if lo < 8 {
          // the next section occurs somewhere, and by the order not before position i
          var s := SymbolOfRank(lo + 1);
          assert s in tokens;
          var j :| 0 <= j < |tokens| && tokens[j] == s;
        }
      }
    }
  }

  lemma RankInjective(a: Symbol, b: Symbol)
    requires Rank(a) == Rank(b)
    ensures a == b
  {
  }

  /** validate accepts exactly the streams H+ R+ D+ S+ C+ B+ F+ T+ X+. */
  lemma AcceptsExactlySectionOrder(tokens: seq<Symbol>)
    ensures Validation(tokens).0 <==> SectionOrder(tokens)
  {
    AcceptsExactlyLanguage(tokens);
    LanguageIsSectionOrder(tokens);
  }

  // ---------------------------------------------------------------- repeated tokens

  /** The run after a stream depends only on the run after a prefix of it. */
  lemma {:induction false} ProcessExtends(a: seq<Symbol>, b: seq<Symbol>, rest: seq<Symbol>)
    requires Process(a) == Process(b)
    ensures Process(a + rest) == Process(b + rest)
    decreases |rest|
  {
    if rest != [] {
      var init, t := rest[..|rest| - 1], rest[|rest| - 1];
      ProcessExtends(a, b, init);
      assert a + rest == (a + init) + [t] && b + rest == (b + init) + [t];
      ProcessSnoc(a + init, t);
      ProcessSnoc(b + init, t);
    } else {
      assert a + rest == a && b + rest == b;
    }
  }

  /** Repeating the last token of a stream changes nothing: either the stream already
      stopped, or the token is a self-loop of the state it led to. */
  lemma RepeatLast(tokens: seq<Symbol>)
    requires tokens != []
    ensures Process(tokens + [tokens[|tokens| - 1]]) == Process(tokens)
  {
    var t := tokens + [tokens[|tokens| - 1]];
    assert t[..|t| - 1] == tokens;
    RunFollowsTable(tokens);
    if Process(tokens).ok {
      ReachChain(tokens);
      SelfLoopChangesNothing(Process(tokens).config, tokens[|tokens| - 1]);
      assert Process(tokens).log + [] == Process(tokens).log;
    }
  }

  /** Writing any token of a stream twice in a row changes neither the verdict nor the log. */
  lemma DuplicateToken(tokens: seq<Symbol>, i: nat)
    requires i < |tokens|
    ensures Validation(tokens[..i + 1] + tokens[i..]) == Validation(tokens)
  {
    var p := tokens[..i + 1];
    RepeatLast(p);
    ProcessExtends(p + [tokens[i]], p, tokens[i + 1..]);
    assert p + [tokens[i]] + tokens[i + 1..] == tokens[..i + 1] + tokens[i..];
    assert p + tokens[i + 1..] == tokens;
  }

  // ---------------------------------------------------------------- worked streams

  /** One more token: the run stops, or takes one step from where it was. */
  lemma ProcessSnoc(tokens: seq<Symbol>, t: Symbol)
    ensures var prev := Process(tokens); var r := Step(prev.config, t);
      Process(tokens + [t]) == if prev.ok then Run(r.ok, r.next, prev.log + r.entries) else prev
  {
    assert (tokens + [t])[..|tokens|] == tokens;
  }

  /** Every accepted stream logs the same four entries: the role block opened and closed,
      then the pay block opened and closed. */
  lemma AcceptedLog(tokens: seq<Symbol>)
    requires Validation(tokens).0
    ensures Validation(tokens).1 ==
      [Pushed(RoleMarker), Popped(RoleMarker), Pushed(PayMarker), Popped(PayMarker)]
  {
    RunFollowsTable(tokens);
  }

  /** One token of each section, in order: accepted, with the two blocks opened and closed. */
  lemma OneOfEachAccepted()
    ensures Validation([H, R, D, S, C, B, F, T, X]) ==
      (true, [Pushed(RoleMarker), Popped(RoleMarker), Pushed(PayMarker), Popped(PayMarker)])
  {
    var tokens := [H, R, D, S, C, B, F, T, X];
    assert Chain(tokens) by {
      forall i | 0 < i < |tokens| ensures Advances(tokens[i - 1], tokens[i]) {
        assert Rank(tokens[i]) == i && Rank(tokens[i - 1]) == i - 1;
      }
    }
    AcceptsExactlyLanguage(tokens);
    AcceptedLog(tokens);
  }

  /** A stream the table runs through to a state short of q_accept is reported incomplete,
      after the log of that state. */
  lemma IncompleteLog(tokens: seq<Symbol>, q: State)
    requires tokens != [] && Reach(tokens) == Some(q) && q != QAccept
    ensures Validation(tokens) == (false, LogFor(q) + [Incomplete(q)])
  {
    RunFollowsTable(tokens);
  }

  /** A header and a role: the role block is open. */
  lemma HeaderThenRole()
    ensures Process([H, R]) == Run(true, Config(QRole, [RoleMarker]), [Pushed(RoleMarker)])
  {
    var tokens := [H, R];
    assert Chain(tokens) by {
      assert Advances(tokens[0], tokens[1]);
    }
    ReachChain(tokens);
    RunFollowsTable(tokens);
  }

  /** Pay right after the role section is rejected where it occurs, and the rest of the
      stream is never read. */
  lemma PayAfterRoleRejected()
    ensures Validation([H, R, C, B, F, T, X]) ==
      (false, [Pushed(RoleMarker), Unexpected(C, QRole, {R, D})])
  {
    HeaderThenRole();
    assert Process([H, R, C]) ==
      Run(false, Config(QRole, [RoleMarker]), [Pushed(RoleMarker), Unexpected(C, QRole, {R, D})]) by {
      ProcessSnoc([H, R], C);
      assert [H, R] + [C] == [H, R, C];
    }
    assert [H, R, C, B, F, T, X][..3] == [H, R, C];
    RejectedPrefix([H, R, C, B, F, T, X], 3);
  }

  /** A stream that stops inside the pay section is incomplete. */
  lemma StopInPayIncomplete()
    ensures Validation([H, R, D, S, C]) ==
      (false, [Pushed(RoleMarker), Popped(RoleMarker), Pushed(PayMarker), Incomplete(QPayBase)])
  {
    ReachPay();
    IncompleteLog([H, R, D, S, C], QPayBase);
    assert LogFor(QPayBase) + [Incomplete(QPayBase)]
      == [Pushed(RoleMarker), Popped(RoleMarker), Pushed(PayMarker), Incomplete(QPayBase)];
  }

  /** H R D S C runs through the table to the pay section. */
  lemma ReachPay()
    ensures Reach([H, R, D, S, C]) == Some(QPayBase)
  {
    var tokens := [H, R, D, S, C];
    assert Chain(tokens) by {
      forall i | 0 < i < |tokens| ensures Advances(tokens[i - 1], tokens[i]) {
        assert Rank(tokens[i]) == i && Rank(tokens[i - 1]) == i - 1;
      }
    }
    ReachChain(tokens);
  }
}
