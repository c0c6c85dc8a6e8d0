/**
 * `HttpServer` (src/http_server.cpp): the lifecycle fields `server_socket_`
 * and `running_`, the setup part of `start`, `stop`, and `handleClient`, which
 * reads one request from a client socket into a fixed buffer, answers it and
 * closes the socket. Socket system calls are replaced by their answers:
 * `start` receives what `socket`, `setsockopt`, `bind` and `listen` return,
 * and a `ClientSocket` object stands for one accepted connection.
 */
module Server {
  import opened Wrappers
  import Routes

  // ---------------------------------------------------------------------------
  // Lifecycle of the listening socket

  /** The fields `server_socket_` and `running_`, and every handle passed to `close` so far. */
  datatype Lifecycle = Lifecycle(serverSocket: int, running: bool, closed: seq<int>)

  /** What the constructor leaves: no socket (-1), not running. */
  const Initial: Lifecycle := Lifecycle(-1, false, [])

  /** `stop`: clear `running_`; close the socket and reset it to -1 only if it is valid. */
  function AfterStop(s: Lifecycle): Lifecycle
  {
    if s.serverSocket >= 0 then Lifecycle(-1, false, s.closed + [s.serverSocket])
    else s.(running := false)
  }

  /** Applying `stop` `k` times (the signal handler and then the destructor both call it). */
  function StopTimes(s: Lifecycle, k: nat): Lifecycle
    decreases k
  {
    if k == 0 then s else StopTimes(AfterStop(s), k - 1)
  }

  /**
   * What the four setup system calls of `start` answer: `socket` gives a
   * handle (a non-negative descriptor) or fails, returning -1; the others
   * succeed or fail.
   */
  datatype SetupAnswers = SetupAnswers(socket: Option<nat>, optionsOk: bool, bindOk: bool, listenOk: bool)
  {
    /** The value `socket` returns. */
    function SocketResult(): int
    {
      if socket.Some? then socket.value else -1
    }
  }

  /** The `std::runtime_error`s `start` throws. */
  datatype StartError = CreateFailed | OptionsFailed | BindFailed | ListenFailed

  function ErrorMessage(e: StartError): string
  {
    match e
    case CreateFailed => "Failed to create socket"
    case OptionsFailed => "Failed to set socket options"
    case BindFailed => "Failed to bind socket"
    case ListenFailed => "Failed to listen on socket"
  }

  /** Each failing step throws its own message, so the message names the step. */
  lemma ErrorMessagesDistinct(e: StartError, f: StartError)
    ensures ErrorMessage(e) == ErrorMessage(f) <==> e == f
  {
  }

  /** The step that fails first, if any, in the order `start` performs them. */
  function FirstFailure(a: SetupAnswers): Option<StartError>
  {
    if a.socket.None? then Some(CreateFailed)
    else if !a.optionsOk then Some(OptionsFailed)
    else if !a.bindOk then Some(BindFailed)
    else if !a.listenOk then Some(ListenFailed)
    else None
  }

  /**
   * The setup part of `start` as written: the new handle is stored in
   * `server_socket_`; when a later step fails the handle is closed but the
   * field keeps its value.
   */
  function StartSetupAsWritten(s: Lifecycle, a: SetupAnswers): (Lifecycle, Outcome<StartError>)
  {
    var fd := a.SocketResult();
    match FirstFailure(a)
    case Some(CreateFailed) => (s.(serverSocket := fd), Fail(CreateFailed))
    case Some(e) => (s.(serverSocket := fd, closed := s.closed + [fd]), Fail(e))
    case None => (s.(serverSocket := fd, running := true), Pass)
  }

  /** The setup part of `start`, corrected: a handle closed on a failure path is also reset to -1. */
  function StartSetup(s: Lifecycle, a: SetupAnswers): (Lifecycle, Outcome<StartError>)
  {
    var fd := a.SocketResult();
    match FirstFailure(a)
    case Some(CreateFailed) => (s.(serverSocket := fd), Fail(CreateFailed))
    case Some(e) => (s.(serverSocket := -1, closed := s.closed + [fd]), Fail(e))
    case None => (s.(serverSocket := fd, running := true), Pass)
  }

  /**
   * After `stop` the server is not running and holds no valid socket (-1 when
   * the field held a handle or -1); it closed the old one exactly when that was valid.
   */
  lemma StopSpec(s: Lifecycle)
    ensures !AfterStop(s).running && AfterStop(s).serverSocket < 0
    ensures s.serverSocket >= -1 ==> AfterStop(s).serverSocket == -1
    ensures AfterStop(s).closed == s.closed + (if s.serverSocket >= 0 then [s.serverSocket] else [])
  {
  }

  /** A second `stop` changes nothing and closes nothing. */
  lemma StopIdempotent(s: Lifecycle)
    ensures AfterStop(AfterStop(s)) == AfterStop(s)
  {
  }

  lemma {:induction false} StopTimesIsStop(s: Lifecycle, k: nat)
    requires k >= 1
    ensures StopTimes(s, k) == AfterStop(s)
    decreases k
  {
    if k > 1 {
      StopTimesIsStop(AfterStop(s), k - 1);
      StopIdempotent(s);
    }
  }

  /**
   * `start` reports the first failing step, as written and corrected alike; it
   * runs exactly when every step succeeds and then holds the new handle. After
   * a failure the corrected setup holds no valid handle, while the setup as
   * written still holds the handle it has just closed.
   */
  lemma StartSetupSpec(s: Lifecycle, a: SetupAnswers)
    ensures StartSetup(s, a).1 == (if FirstFailure(a).Some? then Fail(FirstFailure(a).value) else Pass)
    ensures StartSetupAsWritten(s, a).1 == StartSetup(s, a).1
    ensures StartSetup(s, a).1.Pass? <==> a.socket.Some? && a.optionsOk && a.bindOk && a.listenOk
    ensures StartSetup(s, a).1.Pass? ==> StartSetup(s, a).0 == s.(serverSocket := a.socket.value, running := true)
    ensures StartSetupAsWritten(s, a).1.Pass? ==> StartSetupAsWritten(s, a).0 == StartSetup(s, a).0
    ensures StartSetup(s, a).1.Fail? ==> StartSetup(s, a).0.serverSocket == -1 && StartSetup(s, a).0.running == s.running
    ensures StartSetup(s, a).1.Fail? && a.socket.Some? ==> StartSetupAsWritten(s, a).0.serverSocket == a.socket.value
  {
  }

  /**
   * Corrected behaviour: from a fresh server, one `start` attempt followed by
   * any number of `stop` calls closes the handle `socket` returned exactly
   * once, unless `socket` failed or the server started and was never stopped.
   */
  lemma StartThenStopClosesOnce(a: SetupAnswers, k: nat)
    ensures StopTimes(StartSetup(Initial, a).0, k).closed
         == if a.socket.None? || (FirstFailure(a).None? && k == 0) then [] else [a.socket.value]
  {
    var s := StartSetup(Initial, a).0;
    if k >= 1 {
      StopTimesIsStop(s, k);
    }
  }

  /**
   * As written, a `start` whose `setsockopt`, `bind` or `listen` fails closes
   * the handle, and the `stop` that the destructor runs closes it again.
   */
  lemma StartSetupAsWrittenClosesTwice(a: SetupAnswers)
    requires a.socket.Some? && !(a.optionsOk && a.bindOk && a.listenOk)
    ensures AfterStop(StartSetupAsWritten(Initial, a).0).closed == [a.socket.value, a.socket.value]
  {
  }

  // ---------------------------------------------------------------------------
  // Reading one request

  const BufferSize: nat := 4096
  /** `read` is asked for `sizeof(buffer) - 1` bytes, leaving room for the terminator. */
  const MaxRead: nat := BufferSize - 1
  const NUL: char := '\0'

  /** The text before the first NUL, as `std::string(const char*)` takes it. */
  function UntilNul(s: seq<char>): (r: seq<char>)
    ensures r <= s
    ensures forall i :: 0 <= i < |r| ==> r[i] != NUL
    ensures |r| == |s| || s[|r|] == NUL
  {
    if s == [] || s[0] == NUL then [] else [s[0]] + UntilNul(s[1..])
  }

  /** The count a successful `read` of at most `MaxRead` bytes returns when `available` bytes are there. */
  function ReadCount(available: seq<char>): (n: nat)
    ensures n <= MaxRead && n <= |available|
    ensures n == |available| || n == MaxRead
  {
    if |available| < MaxRead then |available| else MaxRead
  }

  /**
   * The request text `handleClient` builds from the bytes the peer made
   * available: the bytes one read returns (at most `MaxRead`), cut at the
   * first NUL.
   */
  function RequestText(available: seq<char>): (r: string)
    ensures |r| <= MaxRead
    ensures r <= available
    ensures forall i :: 0 <= i < |r| ==> r[i] != NUL
    ensures |r| == ReadCount(available) || available[|r|] == NUL
  {
    UntilNul(available[..ReadCount(available)])
  }

  /** Any index range free of NUL and ended by NUL (or the end) is what `UntilNul` takes. */
  lemma UntilNulAt(s: seq<char>, k: nat)
    requires k <= |s|
    requires forall i :: 0 <= i < k ==> s[i] != NUL
    requires k == |s| || s[k] == NUL
    ensures UntilNul(s) == s[..k]
  {
  }

  /** The length `strlen` finds: the index of the first NUL in the buffer. */
  method CStringLength(buffer: array<char>) returns (length: nat)
    requires exists j :: 0 <= j < buffer.Length && buffer[j] == NUL
    ensures length < buffer.Length && buffer[length] == NUL
    ensures forall i :: 0 <= i < length ==> buffer[i] != NUL
  {
    length := 0;
    while buffer[length] != NUL
      invariant length < buffer.Length
      invariant forall i :: 0 <= i < length ==> buffer[i] != NUL
      invariant exists j :: length <= j < buffer.Length && buffer[j] == NUL
      decreases buffer.Length - length
    {
      length := length + 1;
    }
  }

  /** One accepted connection, seen through the system calls made on it. */
  class ClientSocket {
    /** The bytes the next `read` hands over (at most as many as it is asked for). */
    var available: seq<char>
    /** Whether the next `read` reports an error (-1). */
    var readFails: bool
    /** Everything `write` has sent on this connection. */
    var sent: seq<char>
    /** How many times `close` was called on this connection. */
    var closeCount: nat

    constructor (available: seq<char>, readFails: bool)
      ensures this.available == available && this.readFails == readFails
      ensures sent == [] && closeCount == 0
    {
      this.available := available;
      this.readFails := readFails;
      sent := [];
      closeCount := 0;
    }

    /** `read(fd, buffer, count)`: -1 on error, otherwise the bytes copied to the front of `buffer`. */
    method Read(buffer: array<char>, count: nat) returns (n: int)
      requires count <= buffer.Length
      modifies this, buffer
      ensures old(readFails) ==> n == -1 && buffer[..] == old(buffer[..]) && available == old(available)
      ensures !old(readFails) ==> n == (if |old(available)| < count then |old(available)| else count)
      ensures !old(readFails) ==> buffer[..n] == old(available)[..n] && buffer[n..] == old(buffer[n..])
      ensures !old(readFails) ==> available == old(available)[n..]
      ensures readFails == old(readFails) && sent == old(sent) && closeCount == old(closeCount)
    {
      if readFails {
        n := -1;
      } else {
        n := if |available| < count then |available| else count;
        forall i | 0 <= i < n {
          buffer[i] := available[i];
        }
        available := available[n..];
      }
    }

    /** `write(fd, data, |data|)`: the whole response goes out. */
    method Write(data: seq<char>)
      modifies this
      ensures sent == old(sent) + data
      ensures available == old(available) && readFails == old(readFails) && closeCount == old(closeCount)
    {
      sent := sent + data;
    }

    method Close()
      modifies this
      ensures closeCount == old(closeCount) + 1
      ensures available == old(available) && readFails == old(readFails) && sent == old(sent)
    {
      closeCount := closeCount + 1;
    }
  }

  // ---------------------------------------------------------------------------
  // The server object

  class HttpServer {
    var port: int
    var serverSocket: int
    var running: bool
    /** Every handle this server passed to `close`, in order. */
    var closedHandles: seq<int>

    function State(): Lifecycle
      reads this
    {
      Lifecycle(serverSocket, running, closedHandles)
    }

    constructor (port: int)
      ensures this.port == port && State() == Initial
    {
      this.port := port;
      serverSocket := -1;
      running := false;
      closedHandles := [];
    }

    /** The setup part of `start` (corrected); the accept loop that follows it is not modelled. */
    method Start(answers: SetupAnswers) returns (outcome: Outcome<StartError>)
      modifies this
      ensures (State(), outcome) == StartSetup(old(State()), answers)
      ensures port == old(port)
    {
      serverSocket := answers.SocketResult();
      if serverSocket < 0 {
        return Fail(CreateFailed);
      }
      if !answers.optionsOk {
        closedHandles := closedHandles + [serverSocket];
        serverSocket := -1;
        return Fail(OptionsFailed);
      }
      if !answers.bindOk {
        closedHandles := closedHandles + [serverSocket];
        serverSocket := -1;
        return Fail(BindFailed);
      }
      if !answers.listenOk {
        closedHandles := closedHandles + [serverSocket];
        serverSocket := -1;
        return Fail(ListenFailed);
      }
      running := true;
      outcome := Pass;
    }

    method Stop()
      modifies this
      ensures State() == AfterStop(old(State()))
      ensures port == old(port)
    {
      running := false;
      if serverSocket >= 0 {
        closedHandles := closedHandles + [serverSocket];
        serverSocket := -1;
      }
    }

    /**
     * `handleClient`: read at most `MaxRead` bytes; if the read returned more
     * than zero, answer the request text (the bytes up to the first NUL);
     * close the connection on every path.
     */
    method HandleClient(client: ClientSocket)
      modifies client
      ensures client.closeCount == old(client.closeCount) + 1
      ensures client.sent == old(client.sent)
        + (if !old(client.readFails) && |old(client.available)| > 0
           then Routes.Respond(RequestText(old(client.available)))
           else [])
      ensures client.readFails == old(client.readFails)
      ensures client.available
        == if old(client.readFails) then old(client.available)
           else old(client.available)[ReadCount(old(client.available))..]
    {
      var buffer := new char[BufferSize];
      ghost var available := client.available;
      var bytesRead := client.Read(buffer, MaxRead);
      if bytesRead > 0 {
        buffer[bytesRead] := NUL;
        var length := CStringLength(buffer);
        var request := buffer[..length];
        assert buffer[..bytesRead] == available[..bytesRead];
        assert length <= bytesRead;
        UntilNulAt(available[..bytesRead], length);
        assert request == available[..bytesRead][..length];
        assert request == RequestText(available);
        var response := Routes.Respond(request);
        client.Write(response);
      }
      client.Close();
    }
  }
}
