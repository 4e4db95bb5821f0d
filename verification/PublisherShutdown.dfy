/** The end of the publish pipeline: what was inserted before the stop is handed over before the worker exits. */
module PublisherShutdown {
  import opened PublisherRuns

  lemma {:induction false} StoppedStays(actions: seq<Action>)
    requires Stop in actions
    ensures After(actions).stopped
  {
    var init, last := actions[..|actions| - 1], actions[|actions| - 1];
    assert actions == init + [last];
    if last != Stop {
      StoppedStays(init);
    }
  }

  lemma {:induction false} UndisturbedShutdown(s: System, actions: seq<Action>)
    requires Undisturbed(s, actions) && s.stopped && (s.worker.Exited? ==> s.closed == |s.names|)
    ensures var end := Continue(s, actions);
            end.stopped && end.names == s.names && (end.worker.Exited? ==> end.closed == |end.names|)
    decreases |actions|
  {
    if |actions| > 0 {
      UndisturbedShutdown(Do(s, actions[0]), actions[1..]);
    }
  }

  /**
   * Once the program stops and no more states come in, every schedule ends with the worker's exit, and by then every
   * state inserted was handed over, itself or by a later one of its name.
   */
  lemma StopFlushesEverything(actions: seq<Action>, s: System, more: seq<Action>, end: System, i: nat)
    requires s == After(actions) && s.stopped && !s.worker.Exited? && i < |s.names|
    requires Undisturbed(s, more) && end == Continue(s, more) && Quiescent(end)
    ensures end.worker.Exited? && InBounds(end) && end.names == s.names && Handed(end, i)
  {
    RunInvariant(actions);
    UndisturbedIsShort(s, more);
    UndisturbedShutdown(s, more);
  }
}
