/** The disk cache settings and the check whether a body still fits. */
module DiskCache {

  /** Whether the cache is on, from which size bodies go to disk, and how much may be there. */
  datatype Config = Config(enabled: bool, threshold: int, limit: int)

  /** IsDiskCacheAvailable, with the usage counter as it was read. */
  predicate Available(c: Config, usage: int, size: int) {
    c.enabled && usage + size <= c.limit
  }
}
