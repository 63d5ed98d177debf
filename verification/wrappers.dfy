/** Optional values: `None` stands for pandas' NaN / NaT and for "no previous row". */
module Wrappers {

  datatype Option<+T> = None | Some(value: T)
}
