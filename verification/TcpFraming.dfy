/**
 `proxy/src/dns-relay/listener.ts`: reassembly of length-prefixed messages on a TCP connection
 (RFC 1035, section 4.2.2). Bytes arrive in chunks cut anywhere; every complete message is handed to
 the handler as soon as its last byte is there.
 */
module TcpFraming {
  import opened DnsMessage

  /** A whole frame is at the front of `pending`. */
  predicate HasFrame(pending: Buffer) {
    |pending| >= 2 && |pending| >= 2 + U16(pending, 0)
  }

  function First(pending: Buffer): (message: Buffer)
    requires HasFrame(pending)
    ensures |message| < 0x1_0000
  {
    pending[2..2 + U16(pending, 0)]
  }

  function After(pending: Buffer): (rest: Buffer)
    requires HasFrame(pending)
    ensures |rest| < |pending|
  {
    pending[2 + U16(pending, 0)..]
  }

  datatype Drained = Drained(messages: seq<Buffer>, rest: Buffer)

  /** The messages complete in `pending`, and the bytes left over. */
  function Drain(pending: Buffer): (d: Drained)
    ensures !HasFrame(d.rest)
    decreases |pending|
  {
    if !HasFrame(pending) then Drained([], pending)
    else
      var d := Drain(After(pending));
      Drained([First(pending)] + d.messages, d.rest)
  }

  class TcpConnection {
    var pending: Buffer
    var handled: seq<Buffer>                  // the handler's calls so far, in order

    constructor ()
      ensures pending == [] && handled == []
    {
      pending, handled := [], [];
    }

    method OnData(chunk: Buffer)
      modifies this
      ensures handled == old(handled) + Drain(old(pending) + chunk).messages
      ensures pending == Drain(old(pending) + chunk).rest
    {
      pending := pending + chunk;
      ghost var all := Drain(pending);
      assert handled + all.messages == old(handled) + all.messages;
      while |pending| >= 2 && |pending| >= 2 + U16(pending, 0)
        invariant handled + Drain(pending).messages == old(handled) + all.messages
        invariant Drain(pending).rest == all.rest
        decreases |pending|
      {
        var length := U16(pending, 0);
        var query := pending[2..2 + length];
        ghost var later := Drain(pending[2 + length..]).messages;
        assert handled + ([query] + later) == handled + [query] + later;
        pending := pending[2 + length..];
        handled := handled + [query];
      }
      assert handled + [] == handled;
    }
  }

  // ---------------------------------------------------------------- framing

  /** A message on the wire: two bytes of length, then the message. */
  function Frame(message: Buffer): Buffer
    requires |message| < 0x1_0000
  {
    Bytes16(|message|) + message
  }

  function FrameAll(messages: seq<Buffer>): Buffer
    requires Framable(messages)
  {
    if messages == [] then [] else Frame(messages[0]) + FrameAll(messages[1..])
  }

  predicate Framable(messages: seq<Buffer>) {
    forall i :: 0 <= i < |messages| ==> |messages[i]| < 0x1_0000
  }

  lemma FrameLayout(message: Buffer, rest: Buffer)
    requires |message| < 0x1_0000
    ensures var b := Frame(message) + rest;
            HasFrame(b) && First(b) == message && After(b) == rest
  {
    var head := Bytes16(|message|);
    var b := Frame(message) + rest;
    assert b == head + (message + rest);
    assert b[0] == head[0] && b[1] == head[1];
  }

  lemma FirstFramed(b: Buffer)
    requires HasFrame(b)
    ensures Frame(First(b)) + After(b) == b
  {
    var head := Bytes16(U16(b, 0));
    assert head[0] == b[0] && head[1] == b[1];
    assert b == b[..2] + (First(b) + After(b));
    assert head == b[..2];
  }

  /** Draining what was framed gives it back, with the incomplete tail left over. */
  lemma {:induction false} DrainFrames(messages: seq<Buffer>, tail: Buffer)
    requires Framable(messages) && !HasFrame(tail)
    ensures Drain(FrameAll(messages) + tail) == Drained(messages, tail)
  {
    hide Frame, HasFrame, First, After;
    if messages == [] {
      assert [] + tail == tail;
    } else {
      var first, later := Frame(messages[0]), FrameAll(messages[1..]);
      var rest := later + tail;
      assert first + later + tail == first + rest;
      FrameLayout(messages[0], rest);
      DrainFrames(messages[1..], tail);
      assert [messages[0]] + messages[1..] == messages;
    }
  }

  /** Draining loses no byte: the frames of the messages and the rest are the input. */
  lemma {:induction false} DrainConserves(pending: Buffer)
    ensures Framable(Drain(pending).messages)
    ensures FrameAll(Drain(pending).messages) + Drain(pending).rest == pending
    decreases |pending|
  {
    hide Frame, HasFrame, First, After;
    if HasFrame(pending) {
      var d := Drain(After(pending));
      DrainConserves(After(pending));
      FirstFramed(pending);
      assert ([First(pending)] + d.messages)[1..] == d.messages;
      var first, later := Frame(First(pending)), FrameAll(d.messages);
      assert first + later + d.rest == first + (later + d.rest);
    } else {
      assert [] + pending == pending;
    }
  }

  /** Draining early changes nothing: the messages complete so far come first, the rest waits. */
  lemma {:induction false} DrainInTwoSteps(a: Buffer, b: Buffer)
    ensures Drain(a + b).messages == Drain(a).messages + Drain(Drain(a).rest + b).messages
    ensures Drain(a + b).rest == Drain(Drain(a).rest + b).rest
    decreases |a|
  {
    hide HasFrame, First, After;
    if HasFrame(a) {
      FirstInExtension(a, b);
      DrainInTwoSteps(After(a), b);
    }
  }

  lemma FirstInExtension(a: Buffer, b: Buffer)
    requires HasFrame(a)
    ensures HasFrame(a + b) && First(a + b) == First(a) && After(a + b) == After(a) + b
  {
    assert (a + b)[0] == a[0] && (a + b)[1] == a[1];
  }

  // ---------------------------------------------------------------- whole connections

  function Concat(chunks: seq<Buffer>): Buffer {
    if chunks == [] then [] else Concat(chunks[..|chunks| - 1]) + chunks[|chunks| - 1]
  }

  /** What a fresh connection has handed on and still holds after these chunks, one `OnData` each. */
  function Fed(chunks: seq<Buffer>): Drained {
    if chunks == [] then Drained([], [])
    else
      var before := Fed(chunks[..|chunks| - 1]);
      var d := Drain(before.rest + chunks[|chunks| - 1]);
      Drained(before.messages + d.messages, d.rest)
  }

  lemma {:induction false} ChunkingIsInvisible(chunks: seq<Buffer>)
    ensures Fed(chunks) == Drain(Concat(chunks))
  {
    if chunks != [] {
      var front := chunks[..|chunks| - 1];
      ChunkingIsInvisible(front);
      DrainInTwoSteps(Concat(front), chunks[|chunks| - 1]);
    }
  }

  /**
   However a stream is cut into chunks, the handler has received exactly `messages`, in order, and
   exactly `tail` is pending, if and only if the stream is the frames of `messages` followed by
   `tail` and `tail` is not yet a frame. Zero-length messages are no exception.
   */
  lemma ReassemblyExactly(chunks: seq<Buffer>, messages: seq<Buffer>, tail: Buffer)
    ensures Fed(chunks) == Drained(messages, tail)
            <==> Framable(messages) && Concat(chunks) == FrameAll(messages) + tail && !HasFrame(tail)
  {
    ChunkingIsInvisible(chunks);
    DrainConserves(Concat(chunks));
    if Framable(messages) && Concat(chunks) == FrameAll(messages) + tail && !HasFrame(tail) {
      DrainFrames(messages, tail);
    }
  }

  /** The class over a whole connection. */
  method Converse(chunks: seq<Buffer>) returns (messages: seq<Buffer>, rest: Buffer)
    ensures Drained(messages, rest) == Fed(chunks)
  {
    var connection := new TcpConnection();
    for i := 0 to |chunks|
      invariant Drained(connection.handled, connection.pending) == Fed(chunks[..i])
    {
      assert chunks[..i + 1][..i] == chunks[..i];
      connection.OnData(chunks[i]);
    }
    assert chunks[..|chunks|] == chunks;
    return connection.handled, connection.pending;
  }
}
