/** Optional values: an absent page content, a vectorizer that failed, a link without href. */
module Wrappers {

  datatype Option<+T> = None | Some(value: T)
}
