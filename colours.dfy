/**
 * The two colour wrappers of the console output. In colour mode text is
 * wrapped in an ANSI escape sequence (red for removed text, green for added
 * text); in no-colour mode both wrappers are the identity. The mode is an
 * explicit flag rather than a rebinding of a global table.
 */
module Colours {

  const Escape: char := '\U{1b}'
  /** ESC [ 0 ; 3 1 m */
  const RedCode: string := [Escape] + "[0;31m"
  /** ESC [ 0 ; 3 2 m */
  const GreenCode: string := [Escape] + "[0;32m"
  /** ESC [ 0 m */
  const ResetCode: string := [Escape] + "[0m"

  /** Number of characters a wrapper adds around its text in colour mode. */
  const MarkerLength: nat := 11

  function Red(s: string, colour: bool): (r: string)
    ensures |r| == |s| + (if colour then MarkerLength else 0)
  {
    if colour then RedCode + s + ResetCode else s
  }

  function Green(s: string, colour: bool): (r: string)
    ensures |r| == |s| + (if colour then MarkerLength else 0)
  {
    if colour then GreenCode + s + ResetCode else s
  }
}
