/**
 * Fresh identifiers. The system draws them from `uuid.uuid4()`; here a
 * deterministic oracle stands in for it and promises only what callers
 * rely on: the new id differs from every id it is told to avoid.
 */
module Ids {

  /** A string that is not in `used`: one character longer than the longest of them. */
  method FreshId(used: set<string>) returns (id: string)
    ensures id !in used
  {
    var longest: nat := 0;
    var rest := used;
    while rest != {}
      invariant rest <= used
      invariant forall u :: u in used && u !in rest ==> |u| <= longest
      decreases |rest|
    {
      var u :| u in rest;
      if |u| > longest {
        longest := |u|;
      }
      rest := rest - {u};
    }
    id := seq(longest + 1, _ => '0');
  }
}
