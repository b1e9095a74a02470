/** What lists of numbers, be they tasks, chunks or pids, have in common. */
module Lists {

  /** No element occurs twice. */
  ghost predicate Distinct(l: seq<int>) {
    forall i, j | 0 <= i < j < |l| :: l[i] != l[j]
  }
}
