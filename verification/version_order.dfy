/**
 * Best-effort ordering of version strings.  The parser and the ordering of
 * the version library are not part of this model: a comparison is a
 * parameter of the operations that need one.
 */
module VersionOrder {
  /**
   * The outcome of comparing two version strings a and b: Less when a sorts
   * before b, and Invalid when either string is not a recognised version
   * (the library raises in that case, and the caller treats it as "no
   * information").
   */
  datatype Ordering = Less | Equal | Greater | Invalid

  /** Comparison of two version strings, as described by Ordering. */
  type Comparator = (string, string) -> Ordering
}
