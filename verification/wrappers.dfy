/** Optional values. Stands for Python's `None` wherever the caches accept or
    return it: a missing key or item argument, a lookup miss, no eviction. */
module Wrappers {

  datatype Option<+T> = None | Some(value: T)
}
