// The pipe protocol between Miro and its helper subprocess, and the manager
// that starts, feeds and restarts that subprocess (subprocessmanager.py).
//
// A message on a pipe is a header holding the length of a pickle, written as
// a native unsigned long, followed by the pickle itself. Pickles are opaque
// byte strings here.

module Subprocesses {
  import opened Base

  // ------------------------------------------------------------ the length header

  function Pow256(k: nat): (p: nat)
    ensures p >= 1
  {
    if k == 0 then 1 else 256 * Pow256(k - 1)
  }

  /** struct.pack("L", n) on a little-endian machine whose long is `width` bytes. */
  function EncodeLong(n: nat, width: nat): (b: seq<Byte>)
    ensures |b| == width
  {
    if width == 0 then [] else [n % 256] + EncodeLong(n / 256, width - 1)
  }

  /** struct.unpack("L", b)[0]: the unsigned little-endian value of `b`. */
  function DecodeLong(b: seq<Byte>): (n: nat)
    ensures n < Pow256(|b|)
  {
    if b == [] then 0 else b[0] + 256 * DecodeLong(b[1..])
  }

  /** Every length that fits in a long comes back from its header unchanged. */
  lemma {:induction false} DecodeEncodeLong(n: nat, width: nat)
    requires n < Pow256(width)
    ensures DecodeLong(EncodeLong(n, width)) == n
  {
    if width > 0 {
      DecodeEncodeLong(n / 256, width - 1);
      assert EncodeLong(n, width)[1..] == EncodeLong(n / 256, width - 1);
    }
  }

  /** Every header is the encoding of the length it holds. */
  lemma {:induction false} EncodeDecodeLong(b: seq<Byte>)
    ensures EncodeLong(DecodeLong(b), |b|) == b
  {
    if b != [] {
      EncodeDecodeLong(b[1..]);
      var n := DecodeLong(b);
      assert n % 256 == b[0] && n / 256 == DecodeLong(b[1..]);
    }
  }

  // ------------------------------------------------------------ pipes

  /** The reading end of a pipe: the bytes the writer delivers before it closes its end. */
  class InPipe {
    var unread: seq<Byte>

    constructor(data: seq<Byte>)
      ensures unread == data
    {
      unread := data;
    }

    /**
     * pipe.read(n): the next bytes, at least one and at most n of them, or ''
     * once the writer has closed its end and everything has been read. How
     * many arrive at once is not fixed.
     */
    method Read(n: nat) returns (d: seq<Byte>)
      requires n > 0
      modifies this
      ensures |d| <= n && |d| <= |old(unread)|
      ensures d == old(unread)[..|d|] && unread == old(unread)[|d|..]
      ensures d == [] <==> old(unread) == []
    {
      var most := if n < |unread| then n else |unread|;
      assert (most == 0) == (unread == []);
      var k: nat :| k <= most && (k == 0 <==> unread == []);
      d := unread[..k];
      unread := unread[k..];
    }
  }

  /** The writing end of a pipe: everything written to it so far. */
  class OutPipe {
    var written: seq<Byte>

    constructor()
      ensures written == []
    {
      written := [];
    }

    method Write(data: seq<Byte>)
      modifies this
      ensures written == old(written) + data
    {
      written := written + data;
    }
  }

  /** ''.join(chunks). */
  function Concat(chunks: seq<seq<Byte>>): seq<Byte>
  {
    if chunks == [] then [] else Concat(chunks[..|chunks| - 1]) + chunks[|chunks| - 1]
  }

  function Min(a: nat, b: nat): nat
  {
    if a < b then a else b
  }

  /**
   * _read_bytes_from_pipe: reads until `length` bytes have arrived or the
   * pipe reports end of file, and returns what arrived, in order.
   */
  method ReadBytes(pipe: InPipe, length: nat) returns (r: seq<Byte>)
    modifies pipe
    ensures r == old(pipe.unread)[..Min(length, |old(pipe.unread)|)]
    ensures pipe.unread == old(pipe.unread)[Min(length, |old(pipe.unread)|)..]
    ensures |r| <= length
    ensures |r| < length ==> pipe.unread == []
  {
    ghost var start := pipe.unread;
    var data: seq<seq<Byte>> := [];
    var remaining: nat := length;
    while remaining > 0
      invariant Concat(data) + pipe.unread == start
      invariant |Concat(data)| + remaining == length
    {
      ghost var before := pipe.unread;
      var d := pipe.Read(remaining);
      if d == [] {
        assert pipe.unread == [] && |Concat(data)| == |start|;
        break;
      }
      assert before == d + pipe.unread;
      remaining := remaining - |d|;
      assert Concat(data + [d]) == Concat(data) + d by {
        assert (data + [d])[..|data + [d]| - 1] == data;
      }
      data := data + [d];
    }
    r := Concat(data);
    assert start == r + pipe.unread;
    assert |r| <= |start|;
  }

  // ------------------------------------------------------------ one framed object

  /** Why _load_obj raises LoadError. */
  datatype LoadFailure =
    | ShortHeader(got: nat)    // EOF while reading the size field
    | ShortPayload(got: nat)   // EOF while reading the pickle data
    | Undecodable              // pickle.loads failed

  datatype Loaded = Loaded(payload: seq<Byte>) | LoadError(failure: LoadFailure)

  /** What _load_obj returns for a pipe holding `data`, with what it leaves unread. */
  datatype LoadStep = LoadStep(result: Loaded, rest: seq<Byte>)

  /**
   * _load_obj on a pipe that will deliver `data`: a `width`-byte size field,
   * then that many bytes of pickle. `decodes` tells which byte strings
   * pickle.loads accepts.
   */
  function Load(data: seq<Byte>, width: nat, decodes: seq<Byte> -> bool): LoadStep
  {
    if |data| < width then LoadStep(LoadError(ShortHeader(|data|)), [])
    else LoadBody(DecodeLong(data[..width]), data[width..], decodes)
  }

  /** The second half of _load_obj: `size` bytes of pickle from a pipe that will deliver `body`. */
  function LoadBody(size: nat, body: seq<Byte>, decodes: seq<Byte> -> bool): LoadStep
  {
    if |body| < size then LoadStep(LoadError(ShortPayload(|body|)), [])
    else if !decodes(body[..size]) then LoadStep(LoadError(Undecodable), body[size..])
    else LoadStep(Loaded(body[..size]), body[size..])
  }

  /** What _dump_obj writes for a pickle: its length as a long, then the pickle. */
  function Frame(payload: seq<Byte>, width: nat): seq<Byte>
  {
    EncodeLong(|payload|, width) + payload
  }

  method LoadObj(pipe: InPipe, width: nat, decodes: seq<Byte> -> bool) returns (r: Loaded)
    modifies pipe
    ensures Load(old(pipe.unread), width, decodes) == LoadStep(r, pipe.unread)
  {
    ghost var data := pipe.unread;
    var sizeData := ReadBytes(pipe, width);
    if |sizeData| < width {
      return LoadError(ShortHeader(|sizeData|));
    }
    assert sizeData == data[..width];
    var size := DecodeLong(sizeData);
    ghost var body := pipe.unread;
    var pickleData := ReadBytes(pipe, size);
    if |pickleData| < size {
      return LoadError(ShortPayload(|pickleData|));
    }
    if !decodes(pickleData) {
      return LoadError(Undecodable);
    }
    r := Loaded(pickleData);
  }

  /**
   * _dump_obj: writes the frame, or writes nothing when the length does not
   * fit in a long (struct.pack raises before the first write).
   */
  method DumpObj(payload: seq<Byte>, pipe: OutPipe, width: nat) returns (ok: bool)
    modifies pipe
    ensures ok <==> |payload| < Pow256(width)
    ensures ok ==> pipe.written == old(pipe.written) + Frame(payload, width)
    ensures !ok ==> pipe.written == old(pipe.written)
  {
    if |payload| >= Pow256(width) {
      return false;
    }
    var sizeData := EncodeLong(|payload|, width);
    pipe.Write(sizeData);
    pipe.Write(payload);
    ok := true;
  }

  /** What one side dumps the other side loads, and the bytes after it stay unread. */
  lemma LoadAfterDump(payload: seq<Byte>, rest: seq<Byte>, width: nat, decodes: seq<Byte> -> bool)
    requires |payload| < Pow256(width) && decodes(payload)
    ensures Load(Frame(payload, width) + rest, width, decodes) == LoadStep(Loaded(payload), rest)
  {
    var header := EncodeLong(|payload|, width);
    var data := header + (payload + rest);
    assert Frame(payload, width) + rest == data;
    assert data[..width] == header;
    assert data[width..] == payload + rest;
    DecodeEncodeLong(|payload|, width);
    LoadBodyOfPayload(payload, rest, decodes);
    assert Load(data, width, decodes) == LoadBody(|payload|, payload + rest, decodes);
  }

  lemma LoadBodyOfPayload(payload: seq<Byte>, rest: seq<Byte>, decodes: seq<Byte> -> bool)
    requires decodes(payload)
    ensures LoadBody(|payload|, payload + rest, decodes) == LoadStep(Loaded(payload), rest)
  {
    assert (payload + rest)[..|payload|] == payload;
    assert (payload + rest)[|payload|..] == rest;
  }

  /** Conversely, an object loads only from a frame at the head of the pipe. */
  lemma LoadedCameFromFrame(data: seq<Byte>, width: nat, decodes: seq<Byte> -> bool)
    requires Load(data, width, decodes).result.Loaded?
    ensures var p := Load(data, width, decodes).result.payload;
      |p| < Pow256(width) && decodes(p) &&
      data == Frame(p, width) + Load(data, width, decodes).rest
  {
    var step := Load(data, width, decodes);
    LoadedShape(data, width, decodes);
    FrameSplit(data, width, step.result.payload, step.rest);
  }

  lemma LoadedShape(data: seq<Byte>, width: nat, decodes: seq<Byte> -> bool)
    requires Load(data, width, decodes).result.Loaded?
    ensures var step := Load(data, width, decodes);
      |data| >= width && decodes(step.result.payload) &&
      DecodeLong(data[..width]) == |step.result.payload| &&
      data == data[..width] + step.result.payload + step.rest
  {
    var header, body := data[..width], data[width..];
    var size := DecodeLong(header);
    assert Load(data, width, decodes) == LoadBody(size, body, decodes);
    assert body == body[..size] + body[size..];
    assert data == header + body;
  }

  lemma FrameSplit(data: seq<Byte>, width: nat, p: seq<Byte>, rest: seq<Byte>)
    requires |data| >= width && DecodeLong(data[..width]) == |p|
    requires data == data[..width] + p + rest
    ensures |p| < Pow256(width) && data == Frame(p, width) + rest
  {
    EncodeDecodeLong(data[..width]);
  }

  /** _load_obj raises LoadError at end of file in the header or in the pickle, and only there or on a bad pickle. */
  lemma LoadErrors(data: seq<Byte>, width: nat, decodes: seq<Byte> -> bool)
    ensures var r := Load(data, width, decodes).result;
      (r == LoadError(ShortHeader(|data|)) <==> |data| < width) &&
      (r.LoadError? && r.failure.ShortPayload? <==>
        width <= |data| && |data| - width < DecodeLong(data[..width]))
  {
  }

  // ------------------------------------------------------------ a stream of objects

  /** pickle.dumps(None) in the default protocol: the message that ends a stream. */
  const PickledNone: seq<Byte> := [78, 46]

  /** How _read_from_pipe stops: at a None, or with the LoadError of _load_obj. */
  datatype StreamEnd = SawNone | Failed(failure: LoadFailure)

  /** The objects _read_from_pipe yields for `data`, how it stops, and what it leaves unread. */
  datatype Stream = Stream(messages: seq<seq<Byte>>, end: StreamEnd, rest: seq<Byte>)

  /** Loading never reads past the end of the pipe, and a frame is at least a header long. */
  lemma LoadConsumes(data: seq<Byte>, width: nat, decodes: seq<Byte> -> bool)
    ensures |Load(data, width, decodes).rest| <= |data|
    ensures Load(data, width, decodes).result.Loaded? ==>
      |Load(data, width, decodes).rest| <= |data| - width
  {
  }

  function ReadAll(data: seq<Byte>, width: nat, decodes: seq<Byte> -> bool): Stream
    requires width > 0
    decreases |data|
  {
    var step := Load(data, width, decodes);
    match step.result
    case LoadError(f) => Stream([], Failed(f), step.rest)
    case Loaded(p) =>
      if p == PickledNone then Stream([], SawNone, step.rest)
      else
        LoadConsumes(data, width, decodes);
        Prepend([p], ReadAll(step.rest, width, decodes))
  }

  /** The stream `s` with `ms` yielded ahead of it. */
  function Prepend(ms: seq<seq<Byte>>, s: Stream): Stream
  {
    Stream(ms + s.messages, s.end, s.rest)
  }

  /** After an object other than None, _read_from_pipe carries on with the rest of the pipe. */
  lemma ReadAllGoesOn(data: seq<Byte>, width: nat, decodes: seq<Byte> -> bool)
    requires width > 0
    requires Load(data, width, decodes).result.Loaded?
    requires Load(data, width, decodes).result.payload != PickledNone
    ensures ReadAll(data, width, decodes) ==
      Prepend([Load(data, width, decodes).result.payload], ReadAll(Load(data, width, decodes).rest, width, decodes))
  {
  }

  /** One more object other than None moves from the pipe to what has been yielded. */
  lemma StreamAdvances(whole: Stream, received: seq<seq<Byte>>, data: seq<Byte>, width: nat,
                       decodes: seq<Byte> -> bool)
    requires width > 0 && whole == Prepend(received, ReadAll(data, width, decodes))
    requires Load(data, width, decodes).result.Loaded?
    requires Load(data, width, decodes).result.payload != PickledNone
    ensures |Load(data, width, decodes).rest| < |data|
    ensures whole == Prepend(received + [Load(data, width, decodes).result.payload],
                             ReadAll(Load(data, width, decodes).rest, width, decodes))
  {
    LoadConsumes(data, width, decodes);
    ReadAllGoesOn(data, width, decodes);
    var p := Load(data, width, decodes).result.payload;
    var more := ReadAll(Load(data, width, decodes).rest, width, decodes).messages;
    assert received + ([p] + more) == (received + [p]) + more;
  }

  /** A LoadError or a None ends the stream where it stands. */
  lemma StreamStops(whole: Stream, received: seq<seq<Byte>>, data: seq<Byte>, width: nat,
                    decodes: seq<Byte> -> bool)
    requires width > 0 && whole == Prepend(received, ReadAll(data, width, decodes))
    requires Load(data, width, decodes).result.LoadError? || Load(data, width, decodes).result.payload == PickledNone
    ensures whole.messages == received && whole.rest == Load(data, width, decodes).rest
    ensures QuitTypeFor(OutcomeOf(whole.end)) ==
      if Load(data, width, decodes).result.LoadError? then QuitBadData else QuitNormal
  {
    assert received + [] == received;
  }

  /** What _read_from_pipe does with a pipe that starts with one frame. */
  lemma ReadAllOfFrame(p: seq<Byte>, after: seq<Byte>, width: nat, decodes: seq<Byte> -> bool)
    requires width > 0 && |p| < Pow256(width) && decodes(p)
    ensures ReadAll(Frame(p, width) + after, width, decodes) ==
      if p == PickledNone then Stream([], SawNone, after) else Prepend([p], ReadAll(after, width, decodes))
  {
    LoadAfterDump(p, after, width, decodes);
  }

  /** The frames of several pickles, one after another. */
  function Frames(ms: seq<seq<Byte>>, width: nat): seq<Byte>
  {
    if ms == [] then [] else Frame(ms[0], width) + Frames(ms[1..], width)
  }

  /** The pickles one side may send ahead of the closing None. */
  predicate Sendable(ms: seq<seq<Byte>>, width: nat, decodes: seq<Byte> -> bool)
  {
    forall i :: 0 <= i < |ms| ==> |ms[i]| < Pow256(width) && decodes(ms[i]) && ms[i] != PickledNone
  }

  /**
   * Sending pickles and then None hands the reader exactly those pickles, in
   * order, and it stops at the None leaving what follows unread.
   */
  lemma {:induction false} StreamRoundTrip(ms: seq<seq<Byte>>, tail: seq<Byte>, width: nat,
                                           decodes: seq<Byte> -> bool)
    requires width > 0 && decodes(PickledNone)
    requires Sendable(ms, width, decodes)
    ensures ReadAll(Frames(ms, width) + Frame(PickledNone, width) + tail, width, decodes) == Stream(ms, SawNone, tail)
  {
    var data := Frames(ms, width) + Frame(PickledNone, width) + tail;
    if ms == [] {
      assert data == Frame(PickledNone, width) + tail;
      assert Pow256(width) == 256 * Pow256(width - 1);
      ReadAllOfFrame(PickledNone, tail, width, decodes);
    } else {
      var after := Frames(ms[1..], width) + Frame(PickledNone, width) + tail;
      assert data == Frame(ms[0], width) + after by {
        FramesCons(ms, width);
      }
      assert |ms[0]| < Pow256(width) && decodes(ms[0]) && ms[0] != PickledNone;
      ReadAllOfFrame(ms[0], after, width, decodes);
      SendableTail(ms, width, decodes);
      StreamRoundTrip(ms[1..], tail, width, decodes);
      assert [ms[0]] + ms[1..] == ms;
    }
  }

  lemma FramesCons(ms: seq<seq<Byte>>, width: nat)
    requires ms != []
    ensures Frames(ms, width) == Frame(ms[0], width) + Frames(ms[1..], width)
  {
  }

  lemma SendableTail(ms: seq<seq<Byte>>, width: nat, decodes: seq<Byte> -> bool)
    requires ms != [] && Sendable(ms, width, decodes)
    ensures Sendable(ms[1..], width, decodes)
  {
    forall i | 0 <= i < |ms| - 1
      ensures |ms[1..][i]| < Pow256(width) && decodes(ms[1..][i]) && ms[1..][i] != PickledNone
    {
      assert ms[1..][i] == ms[i + 1];
    }
  }

  /** A writer that closes its end without sending None leaves the reader with a short header. */
  lemma {:induction false} StreamClosedEarly(ms: seq<seq<Byte>>, width: nat, decodes: seq<Byte> -> bool)
    requires width > 0
    requires Sendable(ms, width, decodes)
    ensures ReadAll(Frames(ms, width), width, decodes) == Stream(ms, Failed(ShortHeader(0)), [])
  {
    if ms != [] {
      FramesCons(ms, width);
      assert |ms[0]| < Pow256(width) && decodes(ms[0]) && ms[0] != PickledNone;
      ReadAllOfFrame(ms[0], Frames(ms[1..], width), width, decodes);
      SendableTail(ms, width, decodes);
      StreamClosedEarly(ms[1..], width, decodes);
      assert [ms[0]] + ms[1..] == ms;
    }
  }

  // ------------------------------------------------------------ the responder thread

  /** SubprocessResponderThread's quit_type constants. */
  const QuitNormal := 0
  const QuitReadError := 1
  const QuitBadData := 2
  const QuitUnknown := 3

  /** How SubprocessResponderThread.run leaves its loop. */
  datatype ThreadOutcome = Completed | RaisedLoadError | RaisedIOError | RaisedOther

  /** The quit_type run records for each way out of its loop. */
  function QuitTypeFor(o: ThreadOutcome): (q: int)
    ensures QuitNormal <= q <= QuitUnknown
    ensures q == QuitNormal <==> o == Completed
    ensures q == QuitBadData <==> o == RaisedLoadError
    ensures q == QuitReadError <==> o == RaisedIOError
    ensures q == QuitUnknown <==> o == RaisedOther
  {
    match o
    case Completed => QuitNormal
    case RaisedLoadError => QuitBadData
    case RaisedIOError => QuitReadError
    case RaisedOther => QuitUnknown
  }

  /** The thread's outcome when _read_from_pipe ends as `e`. */
  function OutcomeOf(e: StreamEnd): ThreadOutcome
  {
    if e == SawNone then Completed else RaisedLoadError
  }

  /**
   * SubprocessResponder: messages from the subprocess arrive on the pipe
   * reader's thread and are queued; process_handler_queue, run as an idle
   * callback of the event loop, handles them. safe_to_skip_add_idle says
   * such a callback is already on its way.
   */
  class SubprocessResponder {
    var handlerQueue: seq<seq<Byte>>
    var safeToSkipAddIdle: bool
    /** process_handler_queue callbacks added to the event loop and not yet run. */
    var idleCallbacks: nat
    /** The messages whose handler methods have run, in order. */
    var handled: seq<seq<Byte>>

    /** At most one callback is pending, and any queued message has one coming. */
    ghost predicate Valid()
      reads this
    {
      idleCallbacks == (if safeToSkipAddIdle then 1 else 0) &&
      (handlerQueue != [] ==> safeToSkipAddIdle)
    }

    constructor()
      ensures Valid()
      ensures handlerQueue == [] && handled == [] && !safeToSkipAddIdle && idleCallbacks == 0
    {
      handlerQueue := [];
      safeToSkipAddIdle := false;
      idleCallbacks := 0;
      handled := [];
    }

    /** call_handler: queue the message, and add the idle callback unless one is pending. */
    method CallHandler(message: seq<Byte>)
      requires Valid()
      modifies this
      ensures Valid()
      ensures handlerQueue == old(handlerQueue) + [message] && handled == old(handled)
      ensures safeToSkipAddIdle && idleCallbacks == 1
      ensures idleCallbacks == old(idleCallbacks) + (if old(safeToSkipAddIdle) then 0 else 1)
    {
      handlerQueue := handlerQueue + [message];
      if !safeToSkipAddIdle {
        safeToSkipAddIdle := true;
        idleCallbacks := idleCallbacks + 1;
      }
    }

    /** process_handler_queue: the pending callback runs, clears the flag and drains the queue in order. */
    method ProcessHandlerQueue()
      requires Valid() && idleCallbacks > 0
      modifies this
      ensures Valid()
      ensures handled == old(handled) + old(handlerQueue) && handlerQueue == []
      ensures !safeToSkipAddIdle && idleCallbacks == 0
    {
      idleCallbacks := idleCallbacks - 1;
      safeToSkipAddIdle := false;
      while handlerQueue != []
        invariant handled + handlerQueue == old(handled) + old(handlerQueue)
        invariant !safeToSkipAddIdle && idleCallbacks == 0
        decreases |handlerQueue|
      {
        var message := handlerQueue[0];
        assert handlerQueue == [message] + handlerQueue[1..];
        handlerQueue := handlerQueue[1..];
        handled := handled + [message];
      }
    }
  }

  /**
   * SubprocessResponderThread.run: hands each object _read_from_pipe yields
   * to the responder until the stream stops, then reports the quit_type.
   */
  method RespondUntilQuit(pipe: InPipe, width: nat, decodes: seq<Byte> -> bool,
                          responder: SubprocessResponder)
    returns (received: seq<seq<Byte>>, quitType: int)
    requires width > 0 && responder.Valid()
    modifies pipe, responder
    ensures responder.Valid()
    ensures var s := ReadAll(old(pipe.unread), width, decodes);
      received == s.messages && pipe.unread == s.rest &&
      quitType == QuitTypeFor(OutcomeOf(s.end))
    ensures responder.handlerQueue == old(responder.handlerQueue) + received
    ensures responder.handled == old(responder.handled)
  {
    ghost var whole := ReadAll(pipe.unread, width, decodes);
    received := [];
    while true
      invariant responder.Valid() && responder.handled == old(responder.handled)
      invariant responder.handlerQueue == old(responder.handlerQueue) + received
      invariant whole == Prepend(received, ReadAll(pipe.unread, width, decodes))
      decreases |pipe.unread|
    {
      ghost var before := pipe.unread;
      var msg := LoadObj(pipe, width, decodes);
      if msg.LoadError? || msg.payload == PickledNone {
        StreamStops(whole, received, before, width, decodes);
        quitType := if msg.LoadError? then QuitBadData else QuitNormal;
        return;
      }
      StreamAdvances(whole, received, before, width, decodes);
      responder.CallHandler(msg.payload);
      received := received + [msg.payload];
    }
  }

  // ------------------------------------------------------------ the child's start-up

  /** The objects the manager sends down the subprocess's stdin. */
  datatype Outgoing = StartupInfo | HandlerInfo | QuitRequest | Forwarded(message: seq<Byte>)

  /** What _start sends to every new subprocess before anything else. */
  const StartupMessages: seq<Outgoing> := [StartupInfo, HandlerInfo]

  datatype SetupFailure = StreamEnded | FirstNotStartupInfo | SecondNotHandlerInfo

  datatype SetupResult = HandlerReady | SetupError(failure: SetupFailure)

  /**
   * _subprocess_setup on the objects the child reads from stdin: LoadError
   * unless a StartupInfo arrives first and a HandlerInfo second.
   */
  function Setup(received: seq<Outgoing>): (r: SetupResult)
    ensures r == HandlerReady <==> |received| >= 2 && received[..2] == StartupMessages
    ensures r == SetupError(FirstNotStartupInfo) <==> received != [] && received[0] != StartupInfo
    ensures r == SetupError(SecondNotHandlerInfo) <==>
      |received| >= 2 && received[0] == StartupInfo && received[1] != HandlerInfo
  {
    if received == [] then SetupError(StreamEnded)
    else if received[0] != StartupInfo then SetupError(FirstNotStartupInfo)
    else if |received| < 2 then SetupError(StreamEnded)
    else if received[1] != HandlerInfo then SetupError(SecondNotHandlerInfo)
    else HandlerReady
  }

  // ------------------------------------------------------------ the manager

  /** Responder callbacks and event-loop actions, in the order the manager causes them. */
  datatype Event = OnStartup | OnShutdown | OnRestart | FailedSoft | RestartScheduled(delay: int)

  /** What _on_thread_quit does. */
  datatype QuitAction = Ignored | ReportedStale | CleanedUp | Restarted | Scheduled(delay: int)

  /**
   * The decision _on_thread_quit takes when thread `quitting` reports
   * `quitType` at time `now`.
   */
  function QuitDecision(running: bool, current: Option<nat>, quitting: nat, quitType: int,
                        sentQuit: bool, startTime: int, restartDelay: int, now: int): (a: QuitAction)
    ensures !running ==> a == Ignored
    ensures running && current != Some(quitting) ==>
      if current.Some? && quitType != QuitNormal then a == ReportedStale else a == Ignored
    ensures a == CleanedUp <==>
      running && current == Some(quitting) && quitType == QuitNormal && sentQuit
    ensures running && current == Some(quitting) && !(quitType == QuitNormal && sentQuit) ==>
      if now - startTime >= restartDelay then a == Restarted
      else a == Scheduled(startTime + restartDelay - now)
    ensures a.Scheduled? ==> a.delay > 0
  {
    if !running then Ignored
    else if current != Some(quitting) then
      if current.Some? && quitType != QuitNormal then ReportedStale else Ignored
    else if quitType == QuitNormal && sentQuit then CleanedUp
    else
      var delay := restartDelay - (now - startTime);
      if delay <= 0 then Restarted else Scheduled(delay)
  }

  /** Whatever thread quits, a restart happens no sooner than restart_delay after the last start. */
  lemma RestartsKeepTheirDistance(running: bool, current: Option<nat>, quitting: nat, quitType: int,
                                  sentQuit: bool, startTime: int, restartDelay: int, now: int)
    ensures var a := QuitDecision(running, current, quitting, quitType, sentQuit, startTime, restartDelay, now);
      (a == Restarted ==> now >= startTime + restartDelay) &&
      (a.Scheduled? ==> (now + a.delay == startTime + restartDelay && now < startTime + restartDelay))
  {
  }

  /**
   * SubprocessManager. Processes and their responder threads are numbered in
   * the order they are started; `sent` lists what has been written to the
   * current (or last) subprocess's stdin.
   */
  class SubprocessManager {
    var isRunning: bool
    var sentQuit: bool
    var process: Option<nat>
    var thread: Option<nat>
    var startTime: int
    const restartDelay: int
    /** How many subprocesses have been started. */
    var started: nat
    var sent: seq<Outgoing>
    var events: seq<Event>

    /**
     * The flags move together, the running thread is the newest, and the
     * running subprocess has had its start-up messages and has been asked to
     * quit only if sent_quit says so.
     */
    ghost predicate Valid()
      reads this
    {
      (isRunning <==> process.Some?) && (isRunning <==> thread.Some?) &&
      (thread.Some? ==> process == thread && thread.value + 1 == started) &&
      (isRunning ==> Setup(sent) == HandlerReady) &&
      (sentQuit ==> QuitRequest in sent)
    }

    /** The state _start leaves: a new, running subprocess `id` that has had only its start-up messages. */
    ghost predicate Launched(id: nat, now: int)
      reads this
    {
      isRunning && !sentQuit && process == Some(id) && thread == Some(id) &&
      started == id + 1 && startTime == now && sent == StartupMessages
    }

    constructor(restartDelay: int)
      ensures Valid()
      ensures !isRunning && !sentQuit && process.None? && thread.None? && startTime == 0
      ensures this.restartDelay == restartDelay && started == 0 && sent == [] && events == []
    {
      isRunning := false;
      sentQuit := false;
      process := None;
      thread := None;
      startTime := 0;
      this.restartDelay := restartDelay;
      started := 0;
      sent := [];
      events := [];
    }

    /** start: a no-op while running. */
    method Start(now: int)
      requires Valid()
      modifies this
      ensures Valid()
      ensures old(isRunning) ==> unchanged(this)
      ensures !old(isRunning) ==> Launched(old(started), now) && events == old(events) + [OnStartup]
    {
      if isRunning {
        return;
      }
      Launch(now);
    }

    /** _start with _start_subprocess and _send_startup_info. */
    method Launch(now: int)
      requires Valid()
      modifies this
      ensures Valid()
      ensures Launched(old(started), now) && events == old(events) + [OnStartup]
    {
      process := Some(started);
      startTime := now;
      thread := Some(started);
      started := started + 1;
      isRunning := true;
      sentQuit := false;
      sent := [];
      var ok := SendMessage(StartupInfo);
      ok := SendMessage(HandlerInfo);
      events := events + [OnStartup];
    }

    /** _cleanup_process. */
    method Cleanup()
      requires Valid()
      modifies this`isRunning, this`thread, this`process
      ensures Valid()
      ensures !isRunning && thread.None? && process.None?
    {
      thread := None;
      process := None;
      isRunning := false;
    }

    /** send_message: ValueError (false) while not running. */
    method SendMessage(m: Outgoing) returns (ok: bool)
      modifies this`sent
      ensures ok <==> isRunning
      ensures ok ==> sent == old(sent) + [m]
      ensures !ok ==> sent == old(sent)
    {
      if !isRunning {
        return false;
      }
      sent := sent + [m];
      ok := true;
    }

    /** handle: forwards a message to the subprocess. */
    method Handle(message: seq<Byte>) returns (ok: bool)
      requires Valid()
      modifies this`sent
      ensures Valid()
      ensures ok <==> isRunning
      ensures ok ==> sent == old(sent) + [Forwarded(message)]
      ensures !ok ==> sent == old(sent)
    {
      ok := SendMessage(Forwarded(message));
    }

    /** send_quit: sends None, then sets sent_quit; the ValueError of send_message skips the second step. */
    method SendQuit() returns (ok: bool)
      requires Valid()
      modifies this`sent, this`sentQuit
      ensures Valid()
      ensures ok <==> isRunning
      ensures ok ==> sent == old(sent) + [QuitRequest] && sentQuit
      ensures !ok ==> sent == old(sent) && sentQuit == old(sentQuit)
    {
      ok := SendMessage(QuitRequest);
      if ok {
        sentQuit := true;
      }
    }

    /** shutdown: a no-op while not running; otherwise ask the subprocess to quit and clean up. */
    method Shutdown()
      requires Valid()
      modifies this
      ensures Valid()
      ensures !old(isRunning) ==> unchanged(this)
      ensures old(isRunning) ==>
        !isRunning && thread.None? && process.None? && sentQuit &&
        sent == old(sent) + [QuitRequest] && events == old(events) + [OnShutdown] &&
        started == old(started) && startTime == old(startTime)
    {
      if !isRunning {
        return;
      }
      events := events + [OnShutdown];
      var ok := SendQuit();
      Cleanup();
    }

    /**
     * restart: a clean restart shuts down first; otherwise the subprocess is
     * taken to be gone already, and there being none is an AttributeError
     * (false, nothing changed).
     */
    method Restart(clean: bool, now: int) returns (ok: bool)
      requires Valid()
      modifies this
      ensures Valid()
      ensures ok <==> clean || old(process).Some?
      ensures !ok ==> unchanged(this)
      ensures ok ==> Launched(old(started), now)
      ensures ok ==> (events == old(events) +
        (if clean && old(isRunning) then [OnShutdown] else []) + [OnStartup, OnRestart])
    {
      if clean {
        Shutdown();
      } else {
        if process.None? {
          return false;
        }
        Cleanup();
      }
      Launch(now);
      events := events + [OnRestart];
      ok := true;
    }

    /** _on_thread_quit, run by the event loop when responder thread `quitting` has ended with `quitType`. */
    method OnThreadQuit(quitting: nat, quitType: int, now: int) returns (a: QuitAction)
      requires Valid()
      modifies this
      ensures Valid()
      ensures a == QuitDecision(old(isRunning), old(thread), quitting, quitType, old(sentQuit),
                                old(startTime), restartDelay, now)
      ensures a == Ignored ==> unchanged(this)
      ensures a == ReportedStale ==>
        events == old(events) + [FailedSoft] &&
        isRunning == old(isRunning) && thread == old(thread) && process == old(process) && sent == old(sent) &&
        sentQuit == old(sentQuit) && startTime == old(startTime) && started == old(started)
      ensures a == CleanedUp ==>
        !isRunning && thread.None? && process.None? && events == old(events) && sent == old(sent) &&
        sentQuit == old(sentQuit) && startTime == old(startTime) && started == old(started)
      ensures a == Restarted ==>
        Launched(old(started), now) && events == old(events) + [OnStartup, OnRestart]
      ensures a.Scheduled? ==>
        events == old(events) + [RestartScheduled(a.delay)] &&
        isRunning && thread == old(thread) && process == old(process) && sent == old(sent) &&
        sentQuit == old(sentQuit) && startTime == old(startTime) && started == old(started)
    {
      a := QuitDecision(isRunning, thread, quitting, quitType, sentQuit, startTime, restartDelay, now);
      if !isRunning {
        return;
      }
      if thread != Some(quitting) {
        if thread.Some? && quitType != QuitNormal {
          events := events + [FailedSoft];
        }
        return;
      }
      if quitType == QuitNormal && sentQuit {
        Cleanup();
      } else {
        var delay := restartDelay - (now - startTime);
        if delay <= 0 {
          var ok := Restart(false, now);
        } else {
          events := events + [RestartScheduled(delay)];
        }
      }
    }
  }

  /** While a subprocess runs it has had StartupInfo and HandlerInfo, so its set-up succeeds. */
  lemma RunningChildIsSetUp(m: SubprocessManager)
    requires m.Valid() && m.isRunning
    ensures Setup(m.sent) == HandlerReady
    ensures m.sent[..2] == StartupMessages
  {
  }
}
