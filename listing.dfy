/** The sampling both batch scripts apply to a directory listing. */
module Listing {
  /** `os.listdir(folder)[:sample_size]`: the first n entries, or all of them when there are fewer. */
  function Take<T>(xs: seq<T>, n: nat): (r: seq<T>)
    ensures |r| == if n < |xs| then n else |xs|
    ensures r == xs[..|r|]
  {
    if n < |xs| then xs[..n] else xs
  }
}
