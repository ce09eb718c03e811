/** Allocation inside the session: the window bounds what a caller can collide with. */
module Allocation {
  import opened Correlation
  import opened CorrelationLaws
  import opened CorrelationResults
  import Sequence

  /** In any reachable state of the session, a caller that starts its loop gets a number
      within MaxPending + 1 attempts, whatever the others do meanwhile, as long as fewer
      than a full cycle of numbers is drawn; and insert never reports the limit. */
  lemma EveryCallerGetsANumber(y: Sys, r: Id, x: Sequence.Alloc, es: seq<Sequence.Event>)
    requires Reachable(y) && r in y.reqs && y.reqs[r].stage.Drawing?
    requires Sequence.Starts(x) && x.table == y.table.Keys && x.held.Keys <= Entered(y) - {r}
    requires Sequence.IsRun(x, es) && |Sequence.RunTo(x, es).owners| <= Sequence.MAX
    ensures Sequence.RunTo(x, es).failures < y.cfg.maxPending + 1
    ensures |y.table| < y.cfg.maxPending
  {
    InsertNeverHitsLimit(y, r);
    Sequence.SubsetCard(x.held.Keys, Entered(y) - {r});
    Sequence.AllocationSucceeds(x, es, y.cfg.window, y.cfg.maxPending);
  }
}
