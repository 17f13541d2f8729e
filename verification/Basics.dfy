/** Small shared vocabulary: an optional value (the source's nullable `Ptr`)
    and the left fold that the compilers use to join names into one text. */
module Basics {

  datatype Option<+T> = None | Some(value: T)

  /** The join the compilers build with `Aggregate`: a fold from the left,
      starting from the empty text, that inserts `sep` only once the
      accumulated text is non-empty. */
  function Aggregate(xs: seq<string>, sep: string): string
  {
    if xs == [] then ""
    else
      var acc := Aggregate(xs[..|xs| - 1], sep);
      if acc == "" then xs[|xs| - 1] else acc + sep + xs[|xs| - 1]
  }

  /** The conventional join: `sep` between every two neighbours. */
  function Join(xs: seq<string>, sep: string): string
  {
    if xs == [] then ""
    else if |xs| == 1 then xs[0]
    else Join(xs[..|xs| - 1], sep) + sep + xs[|xs| - 1]
  }

  /** The fold gives the empty text exactly when every joined name is empty. */
  lemma {:induction false} AggregateEmptyIff(xs: seq<string>, sep: string)
    ensures Aggregate(xs, sep) == "" <==> forall i :: 0 <= i < |xs| ==> xs[i] == ""
  {
    if xs != [] {
      var init := xs[..|xs| - 1];
      AggregateEmptyIff(init, sep);
      if Aggregate(init, sep) != "" {
        assert |Aggregate(xs, sep)| >= |Aggregate(init, sep)| > 0;
        var k :| 0 <= k < |init| && init[k] != "";
        assert xs[k] == init[k];
      } else {
        forall i | 0 <= i < |xs| - 1 ensures xs[i] == "" { assert xs[i] == init[i]; }
      }
    }
  }

  /** When no name is empty, the fold is the conventional join. */
  lemma {:induction false} AggregateIsJoin(xs: seq<string>, sep: string)
    requires forall i :: 0 <= i < |xs| ==> xs[i] != ""
    ensures Aggregate(xs, sep) == Join(xs, sep)
  {
    if |xs| > 1 {
      var init := xs[..|xs| - 1];
      AggregateIsJoin(init, sep);
      AggregateEmptyIff(init, sep);
      assert init[0] != "";
    } else if |xs| == 1 {
      assert xs[..0] == [];
    }
  }
}
