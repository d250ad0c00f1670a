/** How the controllers read request fields: JavaScript truthiness (`!x`), the
    `x || default` idiom of the INSERT statements and SQL COALESCE of the UPDATE
    statements. */
module Requests {
  import opened Types

  /** `!!x` for a numeric field: absent, null and 0 are falsy. */
  predicate Given(o: Option<int>) {
    o.Some? && o.value != 0
  }

  /** `!!x` for a text field: absent, null and "" are falsy. */
  predicate GivenText(o: Option<string>) {
    o.Some? && o.value != ""
  }

  /** `x || d` on a numeric field. */
  function OrDefault(o: Option<int>, d: int): (r: int)
    ensures Given(o) ==> r == o.value
    ensures !Given(o) ==> r == d
  {
    if Given(o) then o.value else d
  }

  /** `x || null` on a numeric field: a 0 is stored as NULL. */
  function OrNull(o: Option<int>): (r: Option<int>)
    ensures r.Some? <==> Given(o)
    ensures r.Some? ==> r == o
  {
    if Given(o) then o else None
  }

  /** `x || null` on a text field: an empty string is stored as NULL. */
  function OrNullText(o: Option<string>): (r: Option<string>)
    ensures r.Some? <==> GivenText(o)
    ensures r.Some? ==> r == o
  {
    if GivenText(o) then o else None
  }

  /** For a default of 0, `x || 0` and COALESCE(x, 0) store the same number. */
  lemma OrZeroIsCoalesce(o: Option<int>)
    ensures OrDefault(o, 0) == o.GetOr(0)
  {
  }

  /** For any other default they differ: an explicit 0 is replaced. */
  lemma ExplicitZeroIsReplaced(d: int)
    requires d != 0
    ensures OrDefault(Some(0), d) == d && Some(0).GetOr(d) == 0
  {
  }
}
