/** The error values the modelled code produces, compares against or passes through. */
module Errors {

  datatype Err =
    // io.EOF: the clean end of a reader's data
    | EOF
    // io.ErrShortWrite: a writer accepted fewer bytes than it was given
    | ShortWrite
    // errInvalidWrite: a writer reported a count outside [0, len(p)]
    | InvalidWrite
    // interruptedErr: the copy's context was cancelled
    | Interrupted
    // "invalid config": Connect was given a nil config
    | InvalidConfig
    // "no known_hosts file given"
    | NoKnownHostsFile
    // "unknown host": the interactive user declined an unknown host
    | UnknownHost
    // any error made elsewhere (a reader, a writer, the ssh library, the OS, the terminal)
    | Foreign(msg: string)
}
