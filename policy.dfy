/** The gate's process-wide policy: the constants and the extension allow-set of main.go. */
module Policy {

  /** `cmdDir`: the command root, relative to the working directory. */
  const CmdDir: string := "./cmd"

  /** `cmdTimeout`: the wall-clock limit on one command, in seconds. */
  const CmdTimeoutSeconds: nat := 30

  /** `maxArgLength`: the longest argument accepted, in bytes. */
  const MaxArgLength: nat := 100

  /** `maxArgsCount`: the most arguments accepted after the program name. */
  const MaxArgsCount: nat := 10

  /**
   * `allowedExtensions`: a missing key reads as false in Go, so membership in
   * this set is the whole test. The empty extension admits extension-less
   * Unix executables.
   */
  const AllowedExtensions: set<string> := {".exe", ".bat", ".sh", ""}

  /** The characters `validateArgs` refuses inside an argument. */
  const IllegalChars: set<char> := {'<', '>', '|', '&', ';', '$'}
}
