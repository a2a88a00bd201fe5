/** make(): what make1 builds is what make0 has found due. */
module Make {
  import opened TargetFates
  import opened Make0
  import Make1State

  /** make1 runs the actions of exactly those targets that reach, or are, something that needs
      updating by itself, and reach no source that nobody can find. */
  lemma BuiltIfDue(g: Rules, t: nat, fate: nat)
    requires WfRules(g) && t < |g.found| && FateIs(g, t, fate)
    ensures Make1State.Builds(fate) <==> (exists u :: IsDue(g, t, u)) && !(exists u :: IsLost(g, t, u))
  {
    hide FateIs, IsDue, IsLost;
    BuildMeans(g, t, fate);
    assert fate < BROKEN ==> fate <= UPDATE;
  }
}
