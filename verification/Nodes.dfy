/** What the two linked lists have in common: sequences of nodes in which no node stands twice. */
module Nodes {

  ghost predicate Distinct<T>(nodes: seq<T>) {
    forall i, j :: 0 <= i < j < |nodes| ==> nodes[i] != nodes[j]
  }

  lemma OnlyAt<T>(nodes: seq<T>, k: nat)
    requires Distinct(nodes) && k < |nodes|
    ensures forall j :: 0 <= j < |nodes| && j != k ==> nodes[j] != nodes[k]
  {
  }

  lemma InsertDistinct<T>(nodes: seq<T>, n: T, i: nat)
    requires Distinct(nodes) && n !in nodes && i <= |nodes|
    ensures Distinct(nodes[..i] + [n] + nodes[i..])
  {
  }

  lemma RemoveDistinct<T>(nodes: seq<T>, i: nat)
    requires Distinct(nodes) && i < |nodes|
    ensures Distinct(nodes[..i] + nodes[i + 1..])
    ensures i > 0 ==> forall j :: 0 <= j < |nodes| && j != i - 1 ==> nodes[j] != nodes[i - 1]
  {
  }
}
