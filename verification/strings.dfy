/** Suffix tests on character strings, shared by the buffer and the matcher. */
module Strings {

  /** `s` ends with `suffix`. */
  predicate EndsWith(s: string, suffix: string) {
    |suffix| <= |s| && s[|s| - |suffix|..] == suffix
  }
}
