/**
 * The request/response engine of makiwara.c: the start-up checks of `main`
 * (lines 53-80), the two precomputed responses and their lengths, kept in
 * globals (lines 34-41, 75-88), the registration of accepted clients by
 * `accept_cb` (lines 118-138) and one step of `read_cb` (lines 140-173).
 *
 * The event loop, the sockets and the heap are not modelled: the set of
 * registered descriptors stands for the watchers started on the loop, the
 * results of `accept` and `recv` are inputs, and what `read_cb` does to
 * the client socket is returned as a list of operations.
 */
module Server {
  import opened Wrappers
  import opened Decimal
  import opened CString
  import opened HttpResponse
  import opened KeepAlive

  /** The process exit codes of `main` for a bad argument count, a bad port, a failed allocation. */
  const ExitUsage: int := -1
  const ExitPort: int := -2
  const ExitMemory: int := -3

  /** What start-up hands to the engine: the port and the response body. */
  datatype Config = Config(port: int, body: string)

  /**
   * The checks of `main` before the sockets are opened. `argv` includes the
   * program name, so `|argv|` is `argc`; `atoi` stands for the C library's
   * conversion, and `memoryOk` for whether both `malloc` calls succeeded.
   */
  function Startup(argv: seq<string>, atoi: string -> int, memoryOk: bool): (r: Result<Config, int>)
    ensures r.Success? <==> (|argv| == 2 || |argv| == 3) && 1 <= atoi(argv[1]) <= 65535 && memoryOk
    ensures r.Failure? ==> (r.error == ExitUsage <==> |argv| != 2 && |argv| != 3)
    ensures r.Failure? && (|argv| == 2 || |argv| == 3) ==>
              (r.error == ExitPort <==> !(1 <= atoi(argv[1]) <= 65535))
    ensures r.Failure? ==> r.error in {ExitUsage, ExitPort, ExitMemory}
    ensures r.Success? ==> r.value.port == atoi(argv[1])
    ensures r.Success? ==> r.value.body == if |argv| == 3 then argv[2] else ""
  {
    if |argv| != 2 && |argv| != 3 then Failure(ExitUsage)
    else
      var port := atoi(argv[1]);
      if port < 1 || port > 65535 then Failure(ExitPort)
      else
        var body := if |argv| == 3 then argv[2] else "";
        if !memoryOk then Failure(ExitMemory)
        else Success(Config(port, body))
  }

  /** What `read_cb` does to the client socket, in order. */
  datatype SocketOp = Send(bytes: string) | Shutdown | Close

  /** The server's globals and the set of client descriptors registered on the event loop. */
  class Engine {
    /** The response body, `argv[2]` or empty. */
    const body: string
    /** `response_close`, `response_keep_alive`: heap buffers holding C strings. */
    const responseClose: array<char>
    const responseKeepAlive: array<char>
    /** `response_close_length`, `response_keep_alive_length`, `keep_alive_length`. */
    var responseCloseLength: int
    var responseKeepAliveLength: int
    var keepAliveLength: int
    /** The descriptors whose read watcher is started. */
    var registered: set<int>

    /**
     * Each buffer holds its response then a NUL, each stored length is the
     * response's length, and only accepted descriptors are registered.
     */
    ghost predicate Valid()
      reads this, responseClose, responseKeepAlive
    {
      && 0 <= responseCloseLength < responseClose.Length
      && responseClose[..responseCloseLength] == BuildResponse(body, ConnClose)
      && responseClose[responseCloseLength] == Nul
      && 0 <= responseKeepAliveLength < responseKeepAlive.Length
      && responseKeepAlive[..responseKeepAliveLength] == BuildResponse(body, ConnKeepAlive)
      && responseKeepAlive[responseKeepAliveLength] == Nul
      && keepAliveLength == |KeepAliveStr|
      && (forall fd :: fd in registered ==> fd >= 0)
    }

    /**
     * The set-up in `main` once the arguments are accepted (makiwara.c lines
     * 75-88): two buffers of `strlen(response_fmt) + body_length + 16`
     * characters, each written by `sprintf`, and the lengths taken by
     * `strlen`. A body from the command line holds no NUL.
     */
    constructor (body: string)
      requires |ResponseFmt| + |body| + 16 <= MaxCInt
      requires Nul !in body
      ensures Valid()
      ensures this.body == body && registered == {}
      ensures fresh(responseClose) && fresh(responseKeepAlive)
      ensures responseClose.Length == responseKeepAlive.Length == |ResponseFmt| + |body| + 16
      ensures responseCloseLength == |BuildResponse(body, ConnClose)|
      ensures responseKeepAliveLength == |BuildResponse(body, ConnKeepAlive)|
      ensures responseKeepAliveLength == responseCloseLength + 5
    {
      var size := |ResponseFmt| + |body| + 16;
      var close := BuildResponse(body, ConnClose);
      var keep := BuildResponse(body, ConnKeepAlive);
      assert && |close| < size && Nul !in close
             && |keep| < size && Nul !in keep
             && |keep| == |close| + 5 by {
        ResponseFits(body, ConnClose);
        ResponseFits(body, ConnKeepAlive);
        ResponseHasNoNul(body, ConnClose);
        ResponseHasNoNul(body, ConnKeepAlive);
        VariantsDiffer(body);
      }
      this.body := body;
      var closeBuffer, closeLength := StoreText(close, size);
      var keepBuffer, keepLength := StoreText(keep, size);
      responseClose, responseCloseLength := closeBuffer, closeLength;
      responseKeepAlive, responseKeepAliveLength := keepBuffer, keepLength;
      KeepAliveLength();
      keepAliveLength := |KeepAliveStr|;
      registered := {};
    }

    /**
     * `accept_cb`: a descriptor returned by `accept` gets a read watcher; a
     * failed `accept` (a negative result) changes nothing.
     */
    method Accept(clientSd: int)
      requires Valid()
      modifies this`registered
      ensures Valid()
      ensures registered == if clientSd >= 0 then old(registered) + {clientSd} else old(registered)
    {
      if clientSd < 0 {
        return;
      }
      registered := registered + {clientSd};
    }

    /**
     * One `read_cb` on registered descriptor `fd`, after `recv` returned
     * `read` and filled `buffer`. A read error sends nothing and keeps the
     * client; end of stream closes it; data gets exactly one response: the
     * keep-alive one, keeping the client, when the received bytes ask for
     * it, else the close one followed by shutdown and close.
     */
    method Step(fd: int, buffer: array<char>, read: int) returns (ops: seq<SocketOp>)
      requires Valid()
      requires fd in registered
      requires buffer.Length == BufferSize && read <= BufferSize
      modifies this`registered
      ensures Valid()
      ensures read < 0 ==> ops == [] && registered == old(registered)
      ensures read == 0 ==> ops == [Close] && registered == old(registered) - {fd}
      ensures read > 0 && HasKeepAlive(buffer[..read]) ==>
                ops == [Send(BuildResponse(body, ConnKeepAlive))] && registered == old(registered)
      ensures read > 0 && !HasKeepAlive(buffer[..read]) ==>
                ops == [Send(BuildResponse(body, ConnClose)), Shutdown, Close]
                && registered == old(registered) - {fd}
    {
      ops := [];
      if read < 0 {
        return;
      }
      if read > 0 {
        var found, _ := FindKeepAlive(buffer, read);
        if found {
          ops := [Send(responseKeepAlive[..responseKeepAliveLength])];
          return;
        }
        ops := [Send(responseClose[..responseCloseLength]), Shutdown];
      }
      ops := ops + [Close];
      registered := registered - {fd};
    }
  }

  /**
   * A client of the engine serving `body`: one connection kept open by a keep-alive
   * request and then closed after a plain one, and a second connection
   * whose peer closes before sending anything.
   */
  method TwoConnections(body: string)
    requires |ResponseFmt| + |body| + 16 <= MaxCInt && Nul !in body
  {
    var engine := new Engine(body);
    engine.Accept(7);
    var req := "GET / HTTP/1.1\r\nHost: x\r" + "\n" + "Connection: Keep-Alive" + "\r\n\r\n";
    var buffer := new char[BufferSize]((i: nat) => if i < |req| then req[i] else Nul);
    assert buffer[..|req|] == req;
    KeepAliveRequestRecognised();
    var ops := engine.Step(7, buffer, |req|);
    assert ops == [Send(BuildResponse(body, ConnKeepAlive))];
    assert 7 in engine.registered;

    var plain := "GET / HTTP/1.0\r\n\r\n";
    buffer := new char[BufferSize]((i: nat) => if i < |plain| then plain[i] else Nul);
    assert buffer[..|plain|] == plain;
    ShortRequestNotRecognised(plain);
    ops := engine.Step(7, buffer, |plain|);
    assert ops == [Send(BuildResponse(body, ConnClose)), Shutdown, Close];
    assert 7 !in engine.registered;

    engine.Accept(8);
    ops := engine.Step(8, buffer, 0);
    assert ops == [Close] && engine.registered == {};
  }
}
