/** What several models say about strings. */
module Strings {

  /** The string without a newline at its end; the end anchor of an expression matches before it, too. */
  function Chomp(s: string): string {
    if s != [] && s[|s| - 1] == '\n' then s[..|s| - 1] else s
  }
}
