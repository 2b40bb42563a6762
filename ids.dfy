/** Database-generated identifiers. */
module Ids {

  /** The n-th id the database hands out (`uuid_generate_v4()` in the schemas).
      Its text does not matter; what matters is that it differs from every id
      handed out before it, and length n + 1 is enough to guarantee that. */
  function FreshId(n: nat): (id: string)
    ensures |id| == n + 1
  {
    seq(n + 1, _ => 'f')
  }
}
