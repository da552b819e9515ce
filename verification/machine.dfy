/** The abstract state machine the gamer drives. Its rules-evaluation
    internals are not part of this model: each operation is an uninterpreted
    function field, and the ones that can throw return a `Result`. Replaying a
    history of joint moves is defined here as a left fold over those
    operations. */
module Machine {
  import opened Wrappers
  import opened Matches

  /** An exception thrown by the engine or by dereferencing null. */
  datatype Fault = NullReference | Thrown(reason: string)

  /** The operations of one kind of state machine. `SM` is the abstract value
      of an engine instance, `S` a machine state, `R` a role and `M` a move.
      `initialize` and `perMoveWork` change the instance, so they return its
      new value. */
  datatype StateMachine<!SM, !S, R, !M> = StateMachine(
    initialize: (SM, seq<Sentence>) -> Result<SM, Fault>,
    initialState: SM -> Result<S, Fault>,
    roleFromName: (SM, Option<RoleName>) -> Result<R, Fault>,
    moveFromSentence: (SM, Sentence) -> Result<M, Fault>,
    nextState: (SM, Option<S>, seq<M>) -> Result<S, Fault>,
    perMoveWork: SM -> Result<SM, Fault>,
    stateContents: S -> set<Sentence>,
    moveContents: M -> Sentence)

  /** Decodes a joint move element by element, in order; the first sentence
      that fails to decode aborts the whole joint move with its fault. */
  function DecodeJointMove<SM, S, R, M>(machine: StateMachine<SM, S, R, M>, sm: SM, sentences: JointMove): (r: Result<seq<M>, Fault>)
    ensures r.Success? <==> forall k :: 0 <= k < |sentences| ==> machine.moveFromSentence(sm, sentences[k]).Success?
    ensures r.Success? ==>
      && |r.value| == |sentences|
      && forall k :: 0 <= k < |sentences| ==> machine.moveFromSentence(sm, sentences[k]) == Success(r.value[k])
    ensures r.Failure? ==>
      exists k :: 0 <= k < |sentences| && machine.moveFromSentence(sm, sentences[k]) == Failure(r.error)
        && forall j :: 0 <= j < k ==> machine.moveFromSentence(sm, sentences[j]).Success?
    decreases |sentences|
  {
    if |sentences| == 0 then Success([])
    else
      match machine.moveFromSentence(sm, sentences[0])
      case Failure(e) => Failure(e)
      case Success(move) =>
        match DecodeJointMove(machine, sm, sentences[1..])
        case Failure(e) => Failure(e)
        case Success(moves) => Success([move] + moves)
  }

  /** One turn: decode the joint move and ask the engine for the next state. */
  function Transition<SM, S, R, M>(machine: StateMachine<SM, S, R, M>, sm: SM, s: S, joint: JointMove): Result<S, Fault>
  {
    match DecodeJointMove(machine, sm, joint)
    case Failure(e) => Failure(e)
    case Success(moves) => machine.nextState(sm, Some(s), moves)
  }

  /** The left fold of `Transition` over a history, first joint move first,
      starting from `s`; the first failing turn aborts the replay. */
  function Replay<SM, S, R, M>(machine: StateMachine<SM, S, R, M>, sm: SM, s: S, history: seq<JointMove>): Result<S, Fault>
    decreases |history|
  {
    if |history| == 0 then Success(s)
    else
      match Transition(machine, sm, s, history[0])
      case Failure(e) => Failure(e)
      case Success(next) => Replay(machine, sm, next, history[1..])
  }

  /** Replay from the engine's own initial state. */
  function ReplayFromStart<SM, S, R, M>(machine: StateMachine<SM, S, R, M>, sm: SM, history: seq<JointMove>): Result<S, Fault>
  {
    match machine.initialState(sm)
    case Failure(e) => Failure(e)
    case Success(s0) => Replay(machine, sm, s0, history)
  }

  /** `t` lists the states a game passes through along `history`: one more
      state than joint moves, and each joint move is one transition. */
  ghost predicate IsTrajectory<SM, S, R, M>(machine: StateMachine<SM, S, R, M>, sm: SM, history: seq<JointMove>, t: seq<S>)
  {
    && |t| == |history| + 1
    && forall i :: 0 <= i < |history| ==> Transition(machine, sm, t[i], history[i]) == Success(t[i + 1])
  }

  /** A successful replay passes through a trajectory with exactly one
      transition per history entry, and ends where the trajectory ends. */
  lemma {:induction false} ReplayHasTrajectory<SM, S, R, M>(machine: StateMachine<SM, S, R, M>, sm: SM, s: S, history: seq<JointMove>)
    returns (t: seq<S>)
    requires Replay(machine, sm, s, history).Success?
    ensures IsTrajectory(machine, sm, history, t)
    ensures t[0] == s && t[|history|] == Replay(machine, sm, s, history).value
    decreases |history|
  {
    if |history| == 0 {
      t := [s];
    } else {
      var next := Transition(machine, sm, s, history[0]).value;
      var rest := ReplayHasTrajectory(machine, sm, next, history[1..]);
      t := [s] + rest;
      forall i | 0 <= i < |history|
        ensures Transition(machine, sm, t[i], history[i]) == Success(t[i + 1])
      {
        if i > 0 {
          assert history[1..][i - 1] == history[i];
        }
      }
    }
  }

  /** Conversely, a trajectory along `history` fixes the replay's result: the
      replay from its first state succeeds with its last state. */
  lemma {:induction false} TrajectoryDeterminesReplay<SM, S, R, M>(machine: StateMachine<SM, S, R, M>, sm: SM, history: seq<JointMove>, t: seq<S>)
    requires IsTrajectory(machine, sm, history, t)
    ensures Replay(machine, sm, t[0], history) == Success(t[|history|])
    decreases |history|
  {
    if |history| > 0 {
      assert Transition(machine, sm, t[0], history[0]) == Success(t[1]);
      forall i | 0 <= i < |history[1..]|
        ensures Transition(machine, sm, t[1..][i], history[1..][i]) == Success(t[1..][i + 1])
      {
        assert Transition(machine, sm, t[i + 1], history[i + 1]) == Success(t[i + 2]);
      }
      TrajectoryDeterminesReplay(machine, sm, history[1..], t[1..]);
    }
  }

  /** A failed replay ran a trajectory along a prefix of the history and then
      hit a turn whose decoding or transition failed with the replay's fault. */
  lemma {:induction false} ReplayFailureHasFailingTurn<SM, S, R, M>(machine: StateMachine<SM, S, R, M>, sm: SM, s: S, history: seq<JointMove>)
    returns (k: nat, t: seq<S>)
    requires Replay(machine, sm, s, history).Failure?
    ensures k < |history|
    ensures IsTrajectory(machine, sm, history[..k], t) && t[0] == s
    ensures Transition(machine, sm, t[k], history[k]) == Failure(Replay(machine, sm, s, history).error)
    decreases |history|
  {
    match Transition(machine, sm, s, history[0])
    case Failure(e) =>
      k, t := 0, [s];
    case Success(next) =>
      var k', t' := ReplayFailureHasFailingTurn(machine, sm, next, history[1..]);
      k, t := k' + 1, [s] + t';
      assert history[1..][k'] == history[k];
      forall i | 0 <= i < k
        ensures Transition(machine, sm, t[i], history[..k][i]) == Success(t[i + 1])
      {
        if i > 0 {
          assert history[1..][..k'][i - 1] == history[..k][i];
        }
      }
  }

  /** Replaying `history + [joint]` is replaying `history` and then one more
      transition. */
  lemma {:induction false} ReplayAppend<SM, S, R, M>(machine: StateMachine<SM, S, R, M>, sm: SM, s: S, history: seq<JointMove>, joint: JointMove)
    ensures Replay(machine, sm, s, history + [joint]) ==
      match Replay(machine, sm, s, history)
      case Failure(e) => Failure(e)
      case Success(last) => Transition(machine, sm, last, joint)
    decreases |history|
  {
    if |history| == 0 {
      assert history + [joint] == [joint];
      assert [joint][1..] == [];
    } else {
      assert (history + [joint])[0] == history[0];
      assert (history + [joint])[1..] == history[1..] + [joint];
      match Transition(machine, sm, s, history[0])
      case Failure(e) =>
      case Success(next) =>
        ReplayAppend(machine, sm, next, history[1..], joint);
    }
  }

  /** Two engine values behave alike when they give the same initial state,
      role lookups, move decodings and next states. */
  ghost predicate SameBehaviour<SM, S(!new), R, M(!new)>(machine: StateMachine<SM, S, R, M>, sm: SM, sm': SM)
  {
    && machine.initialState(sm') == machine.initialState(sm)
    && (forall n :: machine.roleFromName(sm', n) == machine.roleFromName(sm, n))
    && (forall x :: machine.moveFromSentence(sm', x) == machine.moveFromSentence(sm, x))
    && (forall s, ms :: machine.nextState(sm', s, ms) == machine.nextState(sm, s, ms))
  }

  /** Decoding under engine values that behave alike gives the same result. */
  lemma {:induction false} DecodeRespectsSameBehaviour<SM, S(!new), R, M(!new)>(machine: StateMachine<SM, S, R, M>, sm: SM, sm': SM, sentences: JointMove)
    requires SameBehaviour(machine, sm, sm')
    ensures DecodeJointMove(machine, sm', sentences) == DecodeJointMove(machine, sm, sentences)
    decreases |sentences|
  {
    if |sentences| > 0 {
      DecodeRespectsSameBehaviour(machine, sm, sm', sentences[1..]);
    }
  }

  /** Replay under engine values that behave alike gives the same result. */
  lemma {:induction false} ReplayRespectsSameBehaviour<SM, S(!new), R, M(!new)>(machine: StateMachine<SM, S, R, M>, sm: SM, sm': SM, s: S, history: seq<JointMove>)
    requires SameBehaviour(machine, sm, sm')
    ensures Replay(machine, sm', s, history) == Replay(machine, sm, s, history)
    decreases |history|
  {
    if |history| > 0 {
      DecodeRespectsSameBehaviour(machine, sm, sm', history[0]);
      match Transition(machine, sm, s, history[0])
      case Failure(e) =>
      case Success(next) =>
        ReplayRespectsSameBehaviour(machine, sm, sm', next, history[1..]);
    }
  }
}
