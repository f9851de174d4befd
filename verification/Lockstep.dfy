/** Trick's main thread and SCH take turns.

  From the first completion on there is one token: it is with Trick main, in `triggerFd`, with SCH, or
  in `doneFd`. Hence an eventfd never counts above one (no wake-up is merged with another), the two
  threads never work on the tasks at the same time, and neither gets a frame ahead of the other.
 */
module Lockstep {
  import opened TaskIpc
  import opened Handshake

  predicate MainHasToken(s: Sys) { !s.main.AwaitDone? }
  predicate SchHasToken(s: Sys) { !s.sch.AwaitTrigger? }

  function Tokens(s: Sys): nat {
    (if MainHasToken(s) then 1 else 0) + s.triggerFd + (if SchHasToken(s) then 1 else 0) + s.doneFd
  }

  /** Table passes that SCH has finished; the first completion ends its initialisation. */
  function SchFrames(s: Sys): int { s.doneWrites - 1 }

  ghost predicate Inv(s: Sys) {
    && Tokens(s) == 1
    && s.triggerWrites == s.triggerReads + s.triggerFd
    && s.doneWrites == s.doneReads + s.doneFd
    && s.doneReads == s.triggerWrites + (if MainHasToken(s) then 1 else 0)
  }

  lemma {:induction false} SchKeeps(c: Config, s: Sys, act: SchAct)
    requires Inv(s) && Shaped(c, s) && SchEnabled(c, s, act)
    ensures Inv(SchApply(c, s, act))
  {
  }

  lemma {:induction false} MainKeeps(c: Config, s: Sys, act: MainAct)
    requires Inv(s) && MainEnabled(s, act)
    ensures Inv(MainApply(c, s, act))
  {
  }

  lemma {:induction false} Keeps(c: Config, s: Sys, step: Step)
    requires Inv(s) && Enabled(c, s, step)
    ensures Inv(Apply(c, s, step))
  {
    match step {
      case SchStep(act) => SchKeeps(c, s, act);
      case MainStep(act) => MainKeeps(c, s, act);
      case _ =>
    }
  }

  lemma {:induction false} Always(c: Config, run: seq<Step>, s: Sys)
    requires Reaches(c, run, s)
    ensures Inv(s)
    decreases |run|
  {
    if run != [] {
      var n := |run| - 1;
      var r :| Reaches(c, run[..n], r) && Enabled(c, r, run[n]) && s == Apply(c, r, run[n]);
      Always(c, run[..n], r);
      Keeps(c, r, run[n]);
    }
  }

  /** In every reachable state: one token; both eventfds are 0 or 1; every write has been read except
      the one still pending; while main updates task times SCH is blocked reading `triggerMain`; and main
      has triggered as many frames as SCH has finished, or exactly one more. */
  lemma {:induction false} OneToken(c: Config, s: Sys)
    requires Reachable(c, s)
    ensures Tokens(s) == 1 && s.triggerFd + s.doneFd <= 1
    ensures s.triggerWrites == s.triggerReads + s.triggerFd && s.doneWrites == s.doneReads + s.doneFd
    ensures SchHasToken(s) ==> s.main == AwaitDone
    ensures s.main != AwaitDone ==> s.sch == AwaitTrigger
    ensures s.doneWrites > 0 ==> 0 <= s.triggerWrites - SchFrames(s) <= 1
    ensures s.doneWrites > 0 ==>
              (s.triggerWrites == SchFrames(s) <==> s.triggerFd == 0 && !SchHasToken(s))
  {
    var run :| Reaches(c, run, s);
    Always(c, run, s);
  }
}
