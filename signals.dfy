/**
 * The fixed notices the two signal handlers write (smallsh.c:53-75). Each
 * handler writes a literal with `write(STDOUT_FILENO, message, count)` and a
 * hand-counted byte count; the model writes the first `count` characters.
 */
module Signals {
  import opened Status

  const InterruptNotice := "terminated by signal 2\n"
  const InterruptCount := 23
  const EnteringNotice := "\nEntering foreground-only mode (& is now ignored)\n"
  const EnteringCount := 50
  const ExitingNotice := "\nExiting foreground-only mode\n"
  const ExitingCount := 30

  /** `write(fd, message, count)` of a literal: its first `count` characters. */
  function Written(message: string, count: nat): string
    requires count <= |message|
  {
    message[..count]
  }

  /**
   * `catchSIGINT`: the byte count covers the whole notice, and the notice
   * reads exactly like the status line of a child ended by signal 2.
   */
  function CatchSIGINT(): (text: string)
    ensures text == InterruptNotice
    ensures text == DisplayStatus(Signaled(2))
  {
    Written(InterruptNotice, InterruptCount)
  }

  /**
   * What `catchSIGTSTP` writes, given the flag before delivery: the whole
   * "Entering" notice when the mode was off, the whole "Exiting" notice when on.
   */
  function TstpNotice(wasOn: bool): (text: string)
    ensures text == (if wasOn then ExitingNotice else EnteringNotice)
  {
    if wasOn then Written(ExitingNotice, ExitingCount) else Written(EnteringNotice, EnteringCount)
  }
}
