/** The state-machine gamer: the (role, current state, state machine) triple
    kept in step with a match, and the four operations that maintain it.
    A gamer is an immutable record; each operation returns the record as the
    source object's fields stand afterwards. Where the source throws after
    having assigned some fields, the operation returns those fields together
    with the exception the caller sees. */
module Gamers {
  import opened Wrappers
  import opened Matches
  import opened Machine

  /** The only two failures a caller of the gamer ever observes. */
  datatype GamerError = MetaGamingException | MoveSelectionException

  /** The gamer's fields; `None` stands for null. The match and the role name
      are set by the surrounding player and only read here (cleanup clears
      them). */
  datatype Gamer<SM, S, R> = Gamer(
    role: Option<R>,
    currentState: Option<S>,
    stateMachine: Option<SM>,
    gameMatch: Option<Match>,
    roleName: Option<RoleName>)

  /** The gamer after a call, together with what the caller observes. */
  datatype Reply<SM, S, R, T> = Reply(gamer: Gamer<SM, S, R>, outcome: Result<T, GamerError>)

  /** The triple agrees with the match after `history`: role and state come
      from the installed engine, the role is that engine's role for the role
      name, and the state is the engine's replay of `history` from its
      initial state. */
  ghost predicate SyncedTo<SM, S, R, M>(machine: StateMachine<SM, S, R, M>, g: Gamer<SM, S, R>, history: seq<JointMove>)
  {
    && g.stateMachine.Some? && g.role.Some? && g.currentState.Some?
    && machine.roleFromName(g.stateMachine.value, g.roleName) == Success(g.role.value)
    && ReplayFromStart(machine, g.stateMachine.value, history) == Success(g.currentState.value)
  }

  /** The triple agrees with the match's whole move history. */
  ghost predicate Synced<SM, S, R, M>(machine: StateMachine<SM, S, R, M>, g: Gamer<SM, S, R>)
  {
    g.gameMatch.Some? && SyncedTo(machine, g, g.gameMatch.value.moveHistory)
  }

  /** Clears the triple, the match and the role name when a player is
      recycled between matches. */
  function CleanupAfterMatch<SM, S, R>(g: Gamer<SM, S, R>): (r: Gamer<SM, S, R>)
    ensures r.role.None? && r.currentState.None? && r.stateMachine.None?
    ensures r.gameMatch.None? && r.roleName.None?
  {
    Gamer(None, None, None, None, None)
  }

  /** `h` holds a complete initialization of `g` by the engine `chosen`: the
      engine initialized with the match's rules, that engine's initial state,
      its role for the gamer's role name, and exactly one new log entry, the
      initial state's contents. */
  ghost predicate Initialized<SM, S, R, M>(machine: StateMachine<SM, S, R, M>, g: Gamer<SM, S, R>, chosen: SM, h: Gamer<SM, S, R>)
  {
    && g.gameMatch.Some? && h.stateMachine.Some? && h.currentState.Some? && h.role.Some?
    && machine.initialize(chosen, g.gameMatch.value.rules) == Success(h.stateMachine.value)
    && machine.initialState(h.stateMachine.value) == Success(h.currentState.value)
    && machine.roleFromName(h.stateMachine.value, g.roleName) == Success(h.role.value)
    && h.gameMatch == Some(AppendState(g.gameMatch.value, machine.stateContents(h.currentState.value)))
    && h.roleName == g.roleName
  }

  /** Match start: installs `chosen` (the subclass's chosen engine), initializes
      it with the rules, takes its initial state and role, logs the initial
      state, then runs the subclass's metagaming `strategy`. The engine field
      is assigned before anything can fail, and the state before the role is
      looked up, so a failure can leave a partly replaced triple. */
  function MetaGame<SM, S, R, M>(machine: StateMachine<SM, S, R, M>, g: Gamer<SM, S, R>, chosen: SM,
                                 strategy: Gamer<SM, S, R> -> Outcome<Fault>): (r: Reply<SM, S, R, ()>)
    ensures r.outcome.Failure? ==> r.outcome.error == MetaGamingException
    ensures r.outcome.Success? <==> Initialized(machine, g, chosen, r.gamer) && strategy(r.gamer) == Pass
    ensures r.gamer.stateMachine == Some(chosen)
         || (&& g.gameMatch.Some? && r.gamer.stateMachine.Some?
             && machine.initialize(chosen, g.gameMatch.value.rules) == Success(r.gamer.stateMachine.value))
    // Without a match, `getMatch()` is null, so reading the rules throws right
    // after the engine was installed.
    ensures g.gameMatch.None? ==> r.gamer == g.(stateMachine := Some(chosen))
    // Once the role is found, the installation is complete, whatever the
    // metagaming strategy does afterwards.
    ensures (&& g.gameMatch.Some? && machine.initialize(chosen, g.gameMatch.value.rules).Success?
             && machine.initialState(machine.initialize(chosen, g.gameMatch.value.rules).value).Success?
             && machine.roleFromName(machine.initialize(chosen, g.gameMatch.value.rules).value, g.roleName).Success?) ==>
      Initialized(machine, g, chosen, r.gamer)
    // Once `initialize` has succeeded, the engine field keeps the initialized
    // engine whatever fails afterwards.
    ensures g.gameMatch.Some? && machine.initialize(chosen, g.gameMatch.value.rules).Success? ==>
      r.gamer.stateMachine == Some(machine.initialize(chosen, g.gameMatch.value.rules).value)
    ensures r.gamer.currentState == g.currentState
         || (r.gamer.stateMachine.Some? && r.gamer.currentState.Some?
             && machine.initialState(r.gamer.stateMachine.value) == Success(r.gamer.currentState.value))
    ensures r.gamer.gameMatch == g.gameMatch || Initialized(machine, g, chosen, r.gamer)
    ensures r.gamer.role == g.role || Initialized(machine, g, chosen, r.gamer)
    ensures r.gamer.roleName == g.roleName
  {
    var g1 := g.(stateMachine := Some(chosen));
    match g.gameMatch
    case None => Reply(g1, Failure(MetaGamingException))
    case Some(m) =>
      match machine.initialize(chosen, m.rules)
      case Failure(_) => Reply(g1, Failure(MetaGamingException))
      case Success(sm) =>
        var g2 := g1.(stateMachine := Some(sm));
        match machine.initialState(sm)
        case Failure(_) => Reply(g2, Failure(MetaGamingException))
        case Success(s) =>
          var g3 := g2.(currentState := Some(s));
          match machine.roleFromName(sm, g.roleName)
          case Failure(_) => Reply(g3, Failure(MetaGamingException))
          case Success(role) =>
            var g4 := g3.(role := Some(role), gameMatch := Some(AppendState(m, machine.stateContents(s))));
            match strategy(g4)
            case Fail(_) => Reply(g4, Failure(MetaGamingException))
            case Pass => Reply(g4, Success(()))
  }

  /** The engine value after the per-move hook: the hook's result, or the
      engine as it was when the hook threw. */
  function AfterPerMoveWork<SM, S, R, M>(machine: StateMachine<SM, S, R, M>, sm: SM): SM
  {
    match machine.perMoveWork(sm)
    case Success(sm') => sm'
    case Failure(_) => sm
  }

  /** `h` is `g` advanced by the joint move `last` under the engine `sm`: the
      state is the engine's next state from `g`'s state on the moves decoded
      in order, the log gained exactly that state's contents, and nothing
      else changed. */
  ghost predicate AdvancedBy<SM, S, R, M>(machine: StateMachine<SM, S, R, M>, sm: SM, g: Gamer<SM, S, R>, last: JointMove, h: Gamer<SM, S, R>)
  {
    && g.gameMatch.Some? && h.currentState.Some?
    && DecodeJointMove(machine, sm, last).Success?
    && machine.nextState(sm, g.currentState, DecodeJointMove(machine, sm, last).value) == Success(h.currentState.value)
    && h == g.(currentState := h.currentState,
               gameMatch := Some(AppendState(g.gameMatch.value, machine.stateContents(h.currentState.value))))
  }

  /** Brings the current state up to the match's most recent joint move, if
      there is one, and logs the new state. */
  function AdvanceToMostRecent<SM, S, R, M>(machine: StateMachine<SM, S, R, M>, sm: SM, g: Gamer<SM, S, R>): Result<Gamer<SM, S, R>, Fault>
  {
    match g.gameMatch
    case None => Failure(NullReference)
    case Some(m) =>
      match m.mostRecentMoves
      case None => Success(g)
      case Some(last) =>
        match DecodeJointMove(machine, sm, last)
        case Failure(e) => Failure(e)
        case Success(moves) =>
          match machine.nextState(sm, g.currentState, moves)
          case Failure(e) => Failure(e)
          case Success(s) => Success(g.(currentState := Some(s), gameMatch := Some(AppendState(m, machine.stateContents(s)))))
  }

  /** A turn: runs the engine's per-move hook, advances the state by the most
      recent joint move (if any) and logs it, then lets the subclass's
      `strategy` choose a move on the updated gamer and returns its sentence. */
  function SelectMove<SM, S, R, M>(machine: StateMachine<SM, S, R, M>, g: Gamer<SM, S, R>,
                                   strategy: Gamer<SM, S, R> -> Result<M, Fault>): (r: Reply<SM, S, R, Sentence>)
    // Any failure reaches the caller as MoveSelectionException only.
    ensures r.outcome.Failure? ==> r.outcome.error == MoveSelectionException
    // Role, role name and everything in the match but its log are left alone.
    ensures r.gamer.role == g.role && r.gamer.roleName == g.roleName
    // Without an engine the hook cannot run and nothing changes.
    ensures g.stateMachine.None? ==> r.gamer == g && r.outcome.Failure?
    // The hook runs exactly once on every path that has an engine ...
    ensures g.stateMachine.Some? ==> r.gamer.stateMachine == Some(AfterPerMoveWork(machine, g.stateMachine.value))
    // ... and before any decoding: if it throws, nothing else changes.
    ensures g.stateMachine.Some? && machine.perMoveWork(g.stateMachine.value).Failure? ==>
      r.gamer == g && r.outcome.Failure?
    // State and log change together, by one transition under the hooked engine.
    ensures (r.gamer.currentState == g.currentState && r.gamer.gameMatch == g.gameMatch)
         || (&& g.stateMachine.Some? && g.gameMatch.Some? && g.gameMatch.value.mostRecentMoves.Some?
             && AdvancedBy(machine, r.gamer.stateMachine.value, g.(stateMachine := r.gamer.stateMachine),
                           g.gameMatch.value.mostRecentMoves.value, r.gamer))
    // No recent moves: neither the state nor the log changes before selection.
    ensures g.gameMatch.Some? && g.gameMatch.value.mostRecentMoves.None? ==>
      r.gamer.currentState == g.currentState && r.gamer.gameMatch == g.gameMatch
    // With recent moves and a working hook, the turn advances exactly when
    // every sentence decodes and the engine accepts the joint move; otherwise
    // state and log are untouched and the call fails.
    ensures (&& g.stateMachine.Some? && machine.perMoveWork(g.stateMachine.value).Success?
             && g.gameMatch.Some? && g.gameMatch.value.mostRecentMoves.Some?) ==>
      var sm' := machine.perMoveWork(g.stateMachine.value).value;
      var last := g.gameMatch.value.mostRecentMoves.value;
      var decoded := DecodeJointMove(machine, sm', last);
      if decoded.Success? && machine.nextState(sm', g.currentState, decoded.value).Success? then
        AdvancedBy(machine, sm', g.(stateMachine := Some(sm')), last, r.gamer)
      else
        r.gamer.currentState == g.currentState && r.gamer.gameMatch == g.gameMatch && r.outcome.Failure?
    // A returned move is the strategy's choice on the updated gamer.
    ensures r.outcome.Success? ==>
      && g.stateMachine.Some? && machine.perMoveWork(g.stateMachine.value).Success?
      && strategy(r.gamer).Success? && r.outcome.value == machine.moveContents(strategy(r.gamer).value)
    // Without a match, `getMatch()` is null, so reading the most recent moves
    // throws: no move is returned.
    ensures g.gameMatch.None? ==> r.outcome.Failure?
    // Conversely, a turn whose hook, bookkeeping and strategy all succeed
    // returns the strategy's move.
    ensures (&& g.stateMachine.Some? && machine.perMoveWork(g.stateMachine.value).Success?
             && g.gameMatch.Some?
             && (g.gameMatch.value.mostRecentMoves.None? || r.gamer.gameMatch != g.gameMatch)
             && strategy(r.gamer).Success?) ==> r.outcome.Success?
  {
    match g.stateMachine
    case None => Reply(g, Failure(MoveSelectionException))
    case Some(sm) =>
      match machine.perMoveWork(sm)
      case Failure(_) => Reply(g, Failure(MoveSelectionException))
      case Success(sm') =>
        var g1 := g.(stateMachine := Some(sm'));
        match AdvanceToMostRecent(machine, sm', g1)
        case Failure(_) => Reply(g1, Failure(MoveSelectionException))
        case Success(g2) =>
          match strategy(g2)
          case Failure(_) => Reply(g2, Failure(MoveSelectionException))
          case Success(move) => Reply(g2, Success(machine.moveContents(move)))
  }

  /** Every step of switching to `newSm` succeeds: its initial state, its
      role for the gamer's role name, the match, and the replay of the whole
      move history from that initial state. */
  ghost predicate CanMigrate<SM, S, R, M>(machine: StateMachine<SM, S, R, M>, g: Gamer<SM, S, R>, newSm: SM)
  {
    && machine.roleFromName(newSm, g.roleName).Success?
    && g.gameMatch.Some?
    && ReplayFromStart(machine, newSm, g.gameMatch.value.moveHistory).Success?
  }

  /** Rebuilds the triple under `newSm` by replaying the match's move history,
      and installs it only if every step succeeded. A failure is swallowed:
      the gamer comes back unchanged, and nothing is ever appended to the
      log. */
  method SwitchStateMachine<SM, S, R, M>(machine: StateMachine<SM, S, R, M>, g: Gamer<SM, S, R>, newSm: SM)
    returns (r: Gamer<SM, S, R>)
    ensures CanMigrate(machine, g, newSm) ==>
      r == g.(role := Some(machine.roleFromName(newSm, g.roleName).value),
              currentState := Some(ReplayFromStart(machine, newSm, g.gameMatch.value.moveHistory).value),
              stateMachine := Some(newSm))
    ensures !CanMigrate(machine, g, newSm) ==> r == g
    ensures CanMigrate(machine, g, newSm) ==> Synced(machine, r) && r.stateMachine == Some(newSm)
  {
    r := g;
    var initial := machine.initialState(newSm);
    if initial.Failure? {
      return;
    }
    var newCurrentState := initial.value;
    var newRole := machine.roleFromName(newSm, g.roleName);
    if newRole.Failure? || g.gameMatch.None? {
      return;
    }
    var history := g.gameMatch.value.moveHistory;
    var i := 0;
    while i < |history|
      invariant 0 <= i <= |history|
      invariant ReplayFromStart(machine, newSm, history) == Replay(machine, newSm, newCurrentState, history[i..])
    {
      var sentences := history[i];
      var jointMove: seq<M> := [];
      var j := 0;
      while j < |sentences|
        invariant 0 <= j <= |sentences| && |jointMove| == j
        invariant forall k :: 0 <= k < j ==> machine.moveFromSentence(newSm, sentences[k]) == Success(jointMove[k])
      {
        var move := machine.moveFromSentence(newSm, sentences[j]);
        if move.Failure? {
          return;
        }
        jointMove := jointMove + [move.value];
        j := j + 1;
      }
      assert DecodeJointMove(machine, newSm, sentences).value == jointMove;
      var next := machine.nextState(newSm, Some(newCurrentState), jointMove);
      if next.Failure? {
        return;
      }
      newCurrentState := next.value;
      i := i + 1;
    }
    r := g.(role := Some(newRole.value), currentState := Some(newCurrentState), stateMachine := Some(newSm));
  }
}
