/** How the gamer's operations compose over a match: the triple stays in
    agreement with the move history across match start, turns and engine
    switches, failures leave the documented partial or unchanged triples, and
    a cleared gamer can do nothing until it is set up again. */
module Lifecycle {
  import opened Wrappers
  import opened Matches
  import opened Machine
  import opened Gamers

  /** The per-move hook never changes the engine's initial state, role
      lookups, move decodings or next states. */
  ghost predicate HookPreserves<SM(!new), S(!new), R, M(!new)>(machine: StateMachine<SM, S, R, M>)
  {
    forall sm :: machine.perMoveWork(sm).Success? ==> SameBehaviour(machine, sm, machine.perMoveWork(sm).value)
  }

  /** A completed match start on a match with no moves yet leaves the triple
      in agreement with the (empty) history. */
  lemma MetaGameSyncs<SM, S, R, M>(machine: StateMachine<SM, S, R, M>, g: Gamer<SM, S, R>, chosen: SM,
                                   strategy: Gamer<SM, S, R> -> Outcome<Fault>)
    requires g.gameMatch.Some? && g.gameMatch.value.moveHistory == []
    ensures MetaGame(machine, g, chosen, strategy).outcome.Success? ==> Synced(machine, MetaGame(machine, g, chosen, strategy).gamer)
  {
  }

  /** If `initialize` throws, the engine field already holds the new,
      uninitialized engine while role and state are the old ones. */
  lemma MetaGameInitializeFailure<SM, S, R, M>(machine: StateMachine<SM, S, R, M>, g: Gamer<SM, S, R>, chosen: SM,
                                               strategy: Gamer<SM, S, R> -> Outcome<Fault>)
    requires g.gameMatch.Some? && machine.initialize(chosen, g.gameMatch.value.rules).Failure?
    ensures MetaGame(machine, g, chosen, strategy) == Reply(g.(stateMachine := Some(chosen)), Failure(MetaGamingException))
  {
  }

  /** If the initial state throws, the engine field holds the initialized
      engine while role and state are the old ones, and nothing was logged. */
  lemma MetaGameInitialStateFailure<SM, S, R, M>(machine: StateMachine<SM, S, R, M>, g: Gamer<SM, S, R>, chosen: SM,
                                                 strategy: Gamer<SM, S, R> -> Outcome<Fault>, sm: SM)
    requires g.gameMatch.Some? && machine.initialize(chosen, g.gameMatch.value.rules) == Success(sm)
    requires machine.initialState(sm).Failure?
    ensures MetaGame(machine, g, chosen, strategy) == Reply(g.(stateMachine := Some(sm)), Failure(MetaGamingException))
  {
  }

  /** If the role lookup throws, engine and state are the new engine's while
      the role is still the old one, and nothing was logged. */
  lemma MetaGameRoleFailure<SM, S, R, M>(machine: StateMachine<SM, S, R, M>, g: Gamer<SM, S, R>, chosen: SM,
                                         strategy: Gamer<SM, S, R> -> Outcome<Fault>, sm: SM, s: S)
    requires g.gameMatch.Some? && machine.initialize(chosen, g.gameMatch.value.rules) == Success(sm)
    requires machine.initialState(sm) == Success(s) && machine.roleFromName(sm, g.roleName).Failure?
    ensures MetaGame(machine, g, chosen, strategy) ==
      Reply(g.(stateMachine := Some(sm), currentState := Some(s)), Failure(MetaGamingException))
  {
  }

  /** If the metagaming strategy throws, the installation it followed stays:
      the initialized engine, its initial state, its role and the appended log
      entry. */
  lemma MetaGameStrategyFailure<SM, S, R, M>(machine: StateMachine<SM, S, R, M>, g: Gamer<SM, S, R>, chosen: SM,
                                             strategy: Gamer<SM, S, R> -> Outcome<Fault>, sm: SM, s: S, role: R)
    requires g.gameMatch.Some? && machine.initialize(chosen, g.gameMatch.value.rules) == Success(sm)
    requires machine.initialState(sm) == Success(s) && machine.roleFromName(sm, g.roleName) == Success(role)
    requires strategy(g.(stateMachine := Some(sm), currentState := Some(s), role := Some(role),
                         gameMatch := Some(AppendState(g.gameMatch.value, machine.stateContents(s))))).Fail?
    ensures MetaGame(machine, g, chosen, strategy) ==
      Reply(g.(stateMachine := Some(sm), currentState := Some(s), role := Some(role),
               gameMatch := Some(AppendState(g.gameMatch.value, machine.stateContents(s)))),
            Failure(MetaGamingException))
  {
  }

  /** A turn keeps the triple in agreement with the history: if the gamer
      agreed with the history before the most recent joint move, then after a
      turn that logged a state or returned a move it agrees with the whole
      history, also under the engine value the hook left behind. */
  lemma {:induction false} SelectMoveKeepsSync<SM(!new), S(!new), R, M(!new)>(machine: StateMachine<SM, S, R, M>, g: Gamer<SM, S, R>,
                                                                          strategy: Gamer<SM, S, R> -> Result<M, Fault>)
    requires HookPreserves(machine)
    requires g.gameMatch.Some? && MostRecentIsLast(g.gameMatch.value)
    requires SyncedTo(machine, g, PriorHistory(g.gameMatch.value))
    ensures var r := SelectMove(machine, g, strategy);
      r.outcome.Success? || r.gamer.gameMatch != g.gameMatch ==> Synced(machine, r.gamer)
  {
    var r := SelectMove(machine, g, strategy);
    var m := g.gameMatch.value;
    var sm := g.stateMachine.value;
    var prior := PriorHistory(m);
    if machine.perMoveWork(sm).Success? {
      var sm' := machine.perMoveWork(sm).value;
      assert SameBehaviour(machine, sm, sm');
      var s0 := machine.initialState(sm).value;
      ReplayRespectsSameBehaviour(machine, sm, sm', s0, prior);
      assert ReplayFromStart(machine, sm', prior) == Success(g.currentState.value);
      if m.mostRecentMoves.Some? {
        var last := m.mostRecentMoves.value;
        ReplayRespectsSameBehaviour(machine, sm, sm', s0, m.moveHistory);
        ReplayAppend(machine, sm', s0, prior, last);
        assert ReplayFromStart(machine, sm', m.moveHistory) == Transition(machine, sm', g.currentState.value, last);
      }
    }
  }

  /** The first turn after a completed match start, with no moves recorded
      yet, leaves the state at the engine's initial state and the log at the
      single entry the match start appended. */
  lemma FirstTurnIsNoOp<SM, S, R, M>(machine: StateMachine<SM, S, R, M>, g: Gamer<SM, S, R>, chosen: SM,
                                     metaStrategy: Gamer<SM, S, R> -> Outcome<Fault>,
                                     moveStrategy: Gamer<SM, S, R> -> Result<M, Fault>)
    requires g.gameMatch.Some? && g.gameMatch.value.mostRecentMoves.None?
    requires MetaGame(machine, g, chosen, metaStrategy).outcome.Success?
    ensures var started := MetaGame(machine, g, chosen, metaStrategy).gamer;
      var turn := SelectMove(machine, started, moveStrategy).gamer;
      && turn.currentState == started.currentState
      && machine.initialState(started.stateMachine.value) == Success(turn.currentState.value)
      && turn.gameMatch == started.gameMatch
      && turn.gameMatch.value.stateLog == g.gameMatch.value.stateLog + [machine.stateContents(turn.currentState.value)]
  {
  }

  /** A cleared gamer has no engine, so a turn fails and changes nothing. */
  lemma SelectMoveAfterCleanup<SM, S, R, M>(machine: StateMachine<SM, S, R, M>, g: Gamer<SM, S, R>,
                                            strategy: Gamer<SM, S, R> -> Result<M, Fault>)
    ensures SelectMove(machine, CleanupAfterMatch(g), strategy) ==
      Reply(CleanupAfterMatch(g), Failure(MoveSelectionException))
  {
  }

  /** A cleared gamer has no match, so an engine switch cannot complete. */
  lemma SwitchAfterCleanup<SM, S, R, M>(machine: StateMachine<SM, S, R, M>, g: Gamer<SM, S, R>, newSm: SM)
    ensures !CanMigrate(machine, CleanupAfterMatch(g), newSm)
  {
  }

  /** A cleared gamer has no match, so a match start fails after installing
      only the chosen engine. */
  lemma MetaGameAfterCleanup<SM, S, R, M>(machine: StateMachine<SM, S, R, M>, g: Gamer<SM, S, R>, chosen: SM,
                                          strategy: Gamer<SM, S, R> -> Outcome<Fault>)
    ensures MetaGame(machine, CleanupAfterMatch(g), chosen, strategy) ==
      Reply(CleanupAfterMatch(g).(stateMachine := Some(chosen)), Failure(MetaGamingException))
  {
  }
}
