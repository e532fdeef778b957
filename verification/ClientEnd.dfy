/** How one call of process() can end for a client, for the machine that makes it and for the table of clients. */
module ClientEnd {
  import opened RequestLine

  /** A decided client keeps its code, and one whose descriptor has been forgotten can only fail. */
  predicate CanEnd(sockfd: int, before: Code, after: Code) {
    && (before != NoRequest ==> after == before)
    && (before == NoRequest && sockfd == -1 ==> after == InternalError)
  }

  /** The code after which the process goes on: Undefined stands for its death. */
  predicate Survives(after: Code) { after != Undefined }

  /** The descriptor that is closed, or -1: an unfinished client is only forgotten. */
  function ClosedFd(sockfd: int, after: Code): int {
    if after == NoRequest || !Survives(after) then -1 else sockfd
  }
}
