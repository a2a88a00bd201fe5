/** The fates of rules.h that make0 gives to targets and make1 goes by, from best to worst. */
module TargetFates {
  const INIT: nat := 0
  const MAKING: nat := 1
  const STABLE: nat := 2
  const NEWER: nat := 3
  const SPOIL: nat := 4
  const ISTMP: nat := 4
  const BUILD: nat := 5
  const TOUCHED: nat := 5
  const REBUILD: nat := 6
  const MISSING: nat := 7
  const NEEDTMP: nat := 8
  const OUTDATED: nat := 9
  const UPDATE: nat := 10
  const BROKEN: nat := 11
  const CANTFIND: nat := 11
  const CANTMAKE: nat := 12
}
