/** Optional values: a missing column, an undefined KPI ("N/A") or an absent control value. */
module Wrappers {
  datatype Option<+T> = None | Some(value: T)
}
