/** The version library the store calls: which texts parse, and which versions a range
    admits. Any library will do; the proofs ask only that the empty text is no version. */
module Semver {
  datatype SemverLib = SemverLib(
    parsesVersion: string -> bool,
    parsesRange: string -> bool,
    parsesRelease: string -> bool,
    inRange: (string, string) -> bool)  // range text, version
  {
    ghost predicate Ok() {
      !parsesVersion("") && parsesRelease("")
    }
  }
}
