// What several components share.
module Basics {
  datatype Option<+T> = None | Some(value: T)

  // Number.MAX_SAFE_INTEGER
  const MAX_SAFE_INTEGER := 9_007_199_254_740_991
}
