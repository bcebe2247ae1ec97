/**
 The network as both senders see it. The HTTP exchange itself is not modelled:
 for each delivery attempt an oracle says what came back (a status code or an
 I/O failure) and whether the back-off sleep that may follow that attempt is
 interrupted. A send is then described by how it ended, the responses it saw
 and the sleeps it took.
 */
module Transport {

  /** What one attempt yields: an HTTP status, or an `IOException`. */
  datatype Response = Code(status: int) | IOFail

  /** The network's behaviour on one attempt. */
  datatype Try = Try(response: Response, sleepInterrupted: bool)

  /** The network for one payload: attempt number, counted from 1, to behaviour. */
  type Network = nat -> Try

  /** How a send ends: it returned normally; it gave up by raising a server
      error that names the last status (0 after an I/O failure); it returned
      normally after an interrupted sleep, leaving the thread's interrupt flag
      set; or `Thread.sleep` refused the negative back-off it was given and the
      send ended with an `IllegalArgumentException`. */
  datatype Ending = Returned | GaveUp(lastCode: int) | Interrupted | BadSleep(sleepMs: int)

  datatype Transmission = Transmission(ending: Ending, responses: seq<Response>, sleeps: seq<int>)

  /** The status a send reports: the code, or Java's initial 0 after an I/O failure. */
  function CodeOf(r: Response): int {
    if r.IOFail? then 0 else r.status
  }
}
