/** The return codes of the two translation functions, and the one they give a TCP packet of a session. */
module Verdicts {
  import T = TcpTracker

  const ALIAS_RESET_TABLE := 4
  const ALIAS_DEL_TABLE := 3
  const ALIAS_TO_ME := 1
  const ALIAS_DOALIAS := 0
  const ALIAS_NO_TABLE := -1
  const ALIAS_TOOSHORT := -2
  const ALIAS_DODROP := -3
  const ALIAS_NOT_SUPPORT := -4
  const ALIAS_TOO_BIG := -5

  predicate Final(st: T.State) {
    st == T.Closed || st == T.Reset
  }

  /** The return code for a TCP packet of a session in the state st, and the session's new state. */
  function TcpVerdict(st: T.State, f: T.Flags, from: T.Side): (int, T.State) {
    if Final(st) then (ALIAS_DOALIAS, st)
    else
      var st' := T.TcpStateCheck(st, f, from);
      (if st' == T.Closed then ALIAS_DEL_TABLE
       else if st' == T.Reset then ALIAS_RESET_TABLE
       else if st' == T.Unknown then (if from == T.Lan then ALIAS_RESET_TABLE else ALIAS_DODROP)
       else ALIAS_DOALIAS, st')
  }
}
