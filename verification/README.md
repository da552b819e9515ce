# State-machine gamer bookkeeping

This project models the bookkeeping layer of the ggp-base general game player
(`StateMachineGamer`). That layer keeps one triple in step with the match being
played: the gamer's role, the current machine state, and the state machine.
It does this across four operations:

- match start (`metaGame`);
- each turn (`selectMove`);
- a mid-match switch to another state machine (`switchStateMachine`);
- cleanup between matches (`cleanupAfterMatch`).

The state machine is an abstract class whose code is not part of this model.
It appears as the datatype `Machine.StateMachine`, a record of uninterpreted
total functions: initialize with rules, initial state, role lookup by name,
move decoding, next state, the per-move hook, and the contents of states and
moves. The calls that can throw return a `Result`. `SM` is the abstract value
of one engine instance. `initialize` and the per-move hook change the instance,
so they return its new value.

The gamer is the immutable record `Gamers.Gamer`, where `None` stands for
null. Its match keeps only what this layer touches: the rules, the move
history, the most recent joint move, and the append-only log of state
contents. `metaGame` and `selectMove` assign fields before steps that can
throw. They are therefore modelled as functions that return a `Reply`: the
gamer as its fields stand afterwards, plus what the caller sees (a value, or
`MetaGamingException` / `MoveSelectionException`). `switchStateMachine` is a
method containing the source's nested replay loops. It is proved to compute
`Machine.Replay`, a left fold of one transition per history entry.

Modules:

- `Wrappers` (`wrappers.dfy`): `Option`, `Result`, `Outcome`.
- `Matches` (`matches.dfy`): sentences, joint moves, the match record.
- `Machine` (`machine.dfy`): the engine interface, joint-move decoding, the
  replay fold, and its trajectory characterisation.
- `Gamers` (`gamer.dfy`): the gamer record and the four operations.
- `Lifecycle` (`lifecycle.dfy`): how the operations compose over a match.

Match start (`metaGame` in `StateMachineGamer.java`) is not atomic. The engine field is assigned at line 160, before `initialize` runs at line 161. The state is assigned at line 162, before the role lookup at line 163. A failure at a later step therefore leaves the earlier assignments in place, so a failed match start can pair a new engine with the old role. `Lifecycle.MetaGameInitializeFailure`, `Lifecycle.MetaGameInitialStateFailure` and `Lifecycle.MetaGameRoleFailure` state the partial triple each failure leaves behind. `Lifecycle.MetaGameStrategyFailure` states that a failing metagaming strategy leaves the completed installation in place.

## Model

| member | source | states |
|---|---|---|
| `Gamers.CleanupAfterMatch` | ggp-base/src/player/gamer/statemachine/StateMachineGamer.java:101-107 | role, current state, state machine, match and role name are all cleared to null |
| `Gamers.MetaGame` | ggp-base/src/player/gamer/statemachine/StateMachineGamer.java:156-173 | success holds exactly when the chosen engine, initialized with the match's rules, gave its initial state and a role for the role name, exactly one log entry (that state's contents) was appended, and the metagaming strategy passed; every failure is `MetaGamingException`; the engine field is always replaced, and once `initialize` has succeeded it keeps the initialized engine whatever fails afterwards; without a match only the engine field changes; the state changes only to the installed engine's initial state; role and log change only as part of the complete installation, which stays in place once the role is found, even if the metagaming strategy then fails |
| `Gamers.SelectMove` | ggp-base/src/player/gamer/statemachine/StateMachineGamer.java:182-208 | the per-move hook runs exactly once, before decoding: the engine afterwards is the hook's result, and a failing hook changes nothing; with no recent moves, state and log are unchanged; otherwise the state becomes the hooked engine's next state on the recent moves decoded in order, with exactly one log entry of its contents, or, if a decode or the transition fails, state and log are unchanged; role and role name never change; every failure is `MoveSelectionException`; with no match the turn fails; a move is returned exactly when the hook, the bookkeeping and the strategy all succeed, and it is the strategy's choice on the updated gamer |
| `Gamers.SwitchStateMachine` | ggp-base/src/player/gamer/statemachine/StateMachineGamer.java:119-141 | if the new engine's role lookup and the replay of the whole history from its initial state succeed, role, state and engine are replaced together by the role, the fold's result and the new engine, and the gamer then agrees with the history; otherwise the gamer is returned unchanged; no failure reaches the caller and the match (history and log) is never changed |
| `Machine.DecodeJointMove` | ggp-base/src/player/gamer/statemachine/StateMachineGamer.java:191-195 | decoding a joint move succeeds exactly when every sentence decodes, giving one move per sentence in the same order; on failure the fault is that of the first sentence that fails to decode |
| `Machine.ReplayHasTrajectory` | ggp-base/src/player/gamer/statemachine/StateMachineGamer.java:126-131 | a successful replay passes through |history|+1 states with exactly one transition per history entry, from the start state to the replay's result |
| `Machine.TrajectoryDeterminesReplay` | ggp-base/src/player/gamer/statemachine/StateMachineGamer.java:126-131 | any chain of one successful transition per history entry determines the replay: it succeeds with the chain's last state |
| `Machine.ReplayFailureHasFailingTurn` | ggp-base/src/player/gamer/statemachine/StateMachineGamer.java:126-140 | a failed replay ran successfully through some prefix of the history and then hit a turn whose decoding or transition threw the replay's fault |
| `Machine.ReplayAppend` | ggp-base/src/player/gamer/statemachine/StateMachineGamer.java:126-131 | replaying a history extended by one joint move is replaying the history and then one more transition |
| `Machine.ReplayRespectsSameBehaviour` | ggp-base/src/player/gamer/statemachine/StateMachineGamer.java:186-197 | replay gives the same result under two engine values that agree on the initial state, role lookup, move decoding and next state, such as the engine before and after a hook that leaves those four answers unchanged |
| `Lifecycle.MetaGameSyncs` | ggp-base/src/player/gamer/statemachine/StateMachineGamer.java:160-164 | a completed match start on a match with no moves leaves role and state produced by the installed engine, in agreement with the empty history |
| `Lifecycle.MetaGameInitializeFailure` | ggp-base/src/player/gamer/statemachine/StateMachineGamer.java:160-161 | if `initialize` throws, the engine field already holds the uninitialized new engine while role and state are the old ones |
| `Lifecycle.MetaGameInitialStateFailure` | ggp-base/src/player/gamer/statemachine/StateMachineGamer.java:160-162 | if the initial state throws, the engine field holds the initialized engine while role and state are the old ones and nothing is logged |
| `Lifecycle.MetaGameRoleFailure` | ggp-base/src/player/gamer/statemachine/StateMachineGamer.java:160-163 | if the role lookup throws, engine and state are the new engine's while the role is the old one and nothing is logged |
| `Lifecycle.MetaGameStrategyFailure` | ggp-base/src/player/gamer/statemachine/StateMachineGamer.java:160-171 | if the metagaming strategy throws, engine, state, role and the appended log entry of the completed installation stay, and the caller sees `MetaGamingException` |
| `Lifecycle.SelectMoveKeepsSync` | ggp-base/src/player/gamer/statemachine/StateMachineGamer.java:186-198 | if the gamer agreed with the history before the most recent joint move and the hook changes nothing observable, then after a turn that logged a state or returned a move it agrees with the whole history, so a switched gamer continues along the new engine's replay |
| `Lifecycle.FirstTurnIsNoOp` | ggp-base/src/player/gamer/statemachine/StateMachineGamer.java:186-201 | the first turn after a completed match start, with no recent moves, leaves the state at the engine's initial state and the match exactly as match start left it: the earlier log plus one entry, the initial state's contents |
| `Lifecycle.SelectMoveAfterCleanup` | ggp-base/src/player/gamer/statemachine/StateMachineGamer.java:101-107 | after cleanup a turn fails with `MoveSelectionException` and changes nothing |
| `Lifecycle.SwitchAfterCleanup` | ggp-base/src/player/gamer/statemachine/StateMachineGamer.java:119-125 | after cleanup an engine switch cannot complete (there is no match), so it leaves the gamer unchanged |
| `Lifecycle.MetaGameAfterCleanup` | ggp-base/src/player/gamer/statemachine/StateMachineGamer.java:156-161 | after cleanup a match start fails with `MetaGamingException`, having installed only the chosen engine |

## Left out

- The three getters (`getCurrentState`, `getRole`, `getStateMachine`) are the field selectors `role`, `currentState` and `stateMachine` of `Gamers.Gamer`. They return the fields unchanged by construction, so they have no members of their own.
- State-machine internals (rule processing, legal moves, goals, next-state computation) are uninterpreted function fields. `getNextStateDestructively` is modelled as the same function as `getNextState`.
- A throwing `initialize` or per-move hook is modelled as leaving the engine value as it was before the call. Any partial change a real engine makes before throwing is not represented.
- `getInitialStateMachine` is the parameter `chosen` of `MetaGame`. It is assumed not to throw.
- The subclass strategies `stateMachineMetaGame` and `stateMachineSelectMove` are function parameters. Each receives the gamer after bookkeeping and may fail. Any change a strategy makes to the gamer itself, such as calling `switchStateMachine` from inside it, is not modelled.
- The match record is not part of this model beyond rules, move history, most recent moves and state log. `Matches.MostRecentIsLast` states the expected relation between the most recent moves and the history. It is used only as a hypothesis of `Lifecycle.SelectMoveKeepsSync`.
- Lifecycle.SelectMoveKeepsSync: assumes the per-move hook leaves the engine's initial state, role lookup, move decoding and next state unchanged (`Lifecycle.HookPreserves`). The source does not say this about engines.
- Keeping the future trajectory unchanged when engines are migrated is proved only against the new engine's own replay. Comparing the state contents produced by the old and the new engine would need the two engines to agree, and the engines are uninterpreted here.
- Logging (`GamerLogger`) is left out. A caught failure is modelled only by its effect on the fields.
- Timeouts, clocks and the thread-safety caveat on `switchStateMachine` are left out. Only sequential calls are modelled.
