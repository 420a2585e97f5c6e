/** Paths in a labelled transition relation. */
module Paths {
  ghost predicate Path<S(!new), L>(rel: (S, L, S) -> bool, s: S, labels: seq<L>, s': S) {
    if labels == [] then s == s' else exists mid :: rel(s, labels[0], mid) && Path(rel, mid, labels[1..], s')
  }

  lemma {:induction false} PathThen<S(!new), L>(rel: (S, L, S) -> bool, s: S, labels: seq<L>, mid: S, more: seq<L>, s': S)
    requires Path(rel, s, labels, mid) && Path(rel, mid, more, s')
    ensures Path(rel, s, labels + more, s')
    decreases |labels|
  {
    if labels == [] {
      assert labels + more == more;
    } else {
      var next :| rel(s, labels[0], next) && Path(rel, next, labels[1..], mid);
      PathThen(rel, next, labels[1..], mid, more, s');
      assert (labels + more)[1..] == labels[1..] + more;
    }
  }
}
