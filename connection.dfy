/**
 * `replServer.createConnection(u)` (index.js:185-206): builds the socket,
 * its frame decoder and the session behind it, and routes every decoded
 * inbound message, as a parsed envelope, to the session's message handler.
 * The URL's `id` and the JSON parse of a message are taken as given.
 */
module Connection {
  import opened Wrappers
  import opened FrameCodec
  import opened Evaluation
  import opened Transport
  import opened Session

  /**
   * The envelopes of `messages` up to the first one `parse` refuses: a
   * `JSON.parse` that throws propagates out of the feed and ends it.
   */
  function Envelopes(parse: seq<byte> -> Option<Envelope>, messages: seq<seq<byte>>): (r: seq<Envelope>)
    ensures |r| <= |messages|
    ensures forall i :: 0 <= i < |r| ==> parse(messages[i]) == Some(r[i])
    ensures |r| < |messages| ==> parse(messages[|r|]) == None
  {
    if messages == [] then []
    else match parse(messages[0])
      case None => []
      case Some(e) => [e] + Envelopes(parse, messages[1..])
  }

  /** Each envelope as a `'message'` event. */
  function AsEvents(envelopes: seq<Envelope>): (r: seq<Event>)
    ensures |r| == |envelopes|
    ensures forall i :: 0 <= i < |r| ==> r[i] == Message(envelopes[i])
  {
    if envelopes == [] then [] else [Message(envelopes[0])] + AsEvents(envelopes[1..])
  }

  /** One more envelope is one more event. */
  lemma AsEventsPrefix(envelopes: seq<Envelope>, i: nat)
    requires i < |envelopes|
    ensures AsEvents(envelopes[..i + 1]) == AsEvents(envelopes[..i]) + [Message(envelopes[i])]
  {
    var a := AsEvents(envelopes[..i + 1]);
    var b := AsEvents(envelopes[..i]) + [Message(envelopes[i])];
    assert |a| == |b|;
    forall k | 0 <= k < |a|
      ensures a[k] == b[k]
    {
    }
  }

  /** The connection: the `socket` returned, and the session `r` emitted as `'repl'`. */
  class Connection {
    const socket: Socket
    const session: ReplSession
    /** `JSON.parse` of a message's UTF-8 text, `None` when it throws. */
    const parse: seq<byte> -> Option<Envelope>
    /**
     * Set once a parse has thrown: the exception skips `cb()` at
     * index.js:195, so the `Transform` never calls `_transform` again and
     * later writes from the page only queue up.
     */
    var wedged: bool

    ghost predicate Valid()
      reads this, socket, socket.decoder
    {
      socket.Valid() && session.socket == socket
    }

    /**
     * `createConnection`: `order` is the decoder's merge, `AsWritten` in the
     * source; the banner goes out before any message can arrive.
     */
    constructor (order: Merge, id: string, bannerText: Option<string>, encode: string -> seq<byte>,
                 evalFn: string -> EvalFnResult, parse: seq<byte> -> Option<Envelope>)
      ensures Valid() && fresh(socket) && fresh(socket.decoder) && fresh(session)
      ensures socket.decoder.order == order && socket.decoder.bs == []
      ensures socket.pushed == BannerChunks(bannerText, encode)
      ensures session.State() == Initial && session.id == id
      ensures session.localEval == Default(evalFn)
      ensures this.parse == parse && !wedged
    {
      var sock := new Socket(order);
      socket := sock;
      session := new ReplSession(sock, id, bannerText, encode, evalFn);
      this.parse := parse;
      wedged := false;
    }

    /**
     * Bytes written to the socket by the page: the decoder emits the
     * payloads of complete frames, each is parsed and dispatched, in order.
     * `delivered` is false when a parse failed and cut the feed short, which
     * wedges the connection; a wedged connection takes no more input.
     */
    method Receive(chunk: seq<byte>) returns (delivered: bool)
      requires Valid()
      modifies this, socket.decoder, session
      ensures Valid()
      ensures wedged == (old(wedged) || !delivered)
      ensures old(wedged) ==>
        !delivered && socket.decoder.bs == old(socket.decoder.bs) && session.State() == old(session.State())
      ensures !old(wedged) ==>
        var messages := Drain(old(socket.decoder.bs) + [chunk], socket.decoder.order).0;
        var envelopes := Envelopes(parse, messages);
        session.State() == Replay(old(session.State()), AsEvents(envelopes)) &&
        (delivered <==> |envelopes| == |messages|) &&
        socket.decoder.bs == Drain(old(socket.decoder.bs) + [chunk], socket.decoder.order).1
      ensures session.localEval == old(session.localEval)
    {
      if wedged {
        return false;
      }
      var messages := socket.Transform(chunk);
      ghost var envelopes := Envelopes(parse, messages);
      ghost var start := session.State();
      var i := 0;
      delivered := true;
      while i < |messages|
        modifies session
        invariant 0 <= i <= |envelopes| && i <= |messages|
        invariant session.State() == Replay(start, AsEvents(envelopes[..i]))
        invariant session.localEval == old(session.localEval)
        invariant delivered
        decreases |messages| - i
      {
        match parse(messages[i]) {
          case None =>
            delivered := false;
            break;
          case Some(e) =>
            assert envelopes[i] == e;
            ReplaySnoc(start, AsEvents(envelopes[..i]), Message(e));
            AsEventsPrefix(envelopes, i);
            session.OnMessage(e);
            i := i + 1;
        }
      }
      assert envelopes[..i] == envelopes;
      wedged := !delivered;
    }
  }

  /**
   * A `'c'` command framed and written as one chunk reaches the REPL's
   * input: its `args` are appended, and nothing else of the session changes.
   */
  lemma FramedCommandIsTyped(s: SessionState, p: seq<byte>, parse: seq<byte> -> Option<Envelope>,
                             args: string, m: Merge)
    requires Framable([p])
    requires parse(p) == Some(Envelope("c", args))
    ensures Drain([Encode([p])], m).0 == [p]
    ensures Replay(s, AsEvents(Envelopes(parse, [p]))).input == s.input + [args]
  {
    OneChunkRoundTrip([p], m);
    var e := Envelope("c", args);
    assert Envelopes(parse, [p]) == [e] by {
      assert [p][1..] == [];
    }
    CommandIsTyped(s, e);
  }

  /** A `'c'` message appends its args to the input. */
  lemma CommandIsTyped(s: SessionState, e: Envelope)
    requires e.command == "c"
    ensures Replay(s, AsEvents([e])).input == s.input + [e.args]
  {
    var es := AsEvents([e]);
    assert es == [Message(e)];
    InputIsTyped(s, es);
    assert Typed(es) == [e.args] by {
      assert es[1..] == [];
    }
  }
}
