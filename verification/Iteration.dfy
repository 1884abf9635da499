/** Go ranges over a map in an unspecified order; the models take that order as a parameter. */
module Iteration {

  /** The sequence visits every key exactly once. */
  ghost predicate IsOrder(keys: set<string>, order: seq<string>) {
    && (forall k :: k in order <==> k in keys)
    && forall i, j :: 0 <= i < j < |order| ==> order[i] != order[j]
  }

  lemma {:induction false} SomeOrder(keys: set<string>) returns (order: seq<string>)
    ensures IsOrder(keys, order)
    decreases keys
  {
    if keys == {} {
      order := [];
    } else {
      var k :| k in keys;
      var rest := SomeOrder(keys - {k});
      order := rest + [k];
    }
  }

  lemma OrderEndingWith(keys: set<string>, k: string) returns (order: seq<string>)
    requires k in keys
    ensures IsOrder(keys, order) && order != [] && order[|order| - 1] == k
  {
    var rest := SomeOrder(keys - {k});
    order := rest + [k];
    assert k in order;
  }
}
