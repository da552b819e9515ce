/** The part of a match record that the state-machine gamer touches: the game
    rules, the history of joint moves, the most recent joint move, and the
    append-only log of state contents. */
module Matches {
  import opened Wrappers

  /** A GDL sentence, kept as its text. */
  type Sentence = string

  /** The name of a role as it appears in the game description. */
  type RoleName = string

  /** One move per role, in role order, as sentences. */
  type JointMove = seq<Sentence>

  datatype Match = Match(
    rules: seq<Sentence>,
    moveHistory: seq<JointMove>,
    mostRecentMoves: Option<JointMove>,
    stateLog: seq<set<Sentence>>)

  /** Records the contents of a newly reached state at the end of the log. */
  function AppendState(m: Match, contents: set<Sentence>): (r: Match)
    ensures |r.stateLog| == |m.stateLog| + 1
    ensures r.stateLog[..|m.stateLog|] == m.stateLog && r.stateLog[|m.stateLog|] == contents
    ensures r.rules == m.rules && r.moveHistory == m.moveHistory && r.mostRecentMoves == m.mostRecentMoves
  {
    m.(stateLog := m.stateLog + [contents])
  }

  /** How a match is expected to relate its most recent joint move to its
      history: absent while the history is empty, otherwise the last entry.
      The match record is not part of this model, so this is used only as a
      hypothesis. */
  ghost predicate MostRecentIsLast(m: Match)
  {
    if |m.moveHistory| == 0 then m.mostRecentMoves.None?
    else m.mostRecentMoves == Some(m.moveHistory[|m.moveHistory| - 1])
  }

  /** The history as it was before the most recent joint move was recorded. */
  function PriorHistory(m: Match): (h: seq<JointMove>)
    requires MostRecentIsLast(m)
    ensures m.mostRecentMoves.None? ==> h == m.moveHistory
    ensures m.mostRecentMoves.Some? ==> m.moveHistory == h + [m.mostRecentMoves.value]
  {
    if |m.moveHistory| == 0 then m.moveHistory else m.moveHistory[..|m.moveHistory| - 1]
  }
}
