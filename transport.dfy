/**
 * The in-process socket that `createConnection` builds (index.js:189-199):
 * a `stream.Transform` whose writable side receives the page's bytes and
 * feeds them to a frame decoder, and whose readable side carries what the
 * session sends to the page, pushed as raw bytes without any framing.
 */
module Transport {
  import opened FrameCodec

  class Socket {
    /**
     * The `bcat` closure of index.js:190-192. The source's is built with the
     * merge `AsWritten`; `InOrder` gives the corrected decoder.
     */
    const decoder: FrameDecoder
    /** Every chunk handed to `socket.push`, oldest first: the bytes the page reads. */
    var pushed: seq<seq<byte>>

    ghost predicate Valid()
      reads this, decoder
    {
      decoder.Valid()
    }

    constructor (order: Merge)
      ensures Valid() && fresh(decoder)
      ensures decoder.order == order && decoder.bs == [] && pushed == []
    {
      decoder := new FrameDecoder(order);
      pushed := [];
    }

    /** `socket.send(chunk)` (index.js:197-199): the chunk goes out as is, unframed. */
    method Send(chunk: seq<byte>)
      modifies this
      ensures pushed == old(pushed) + [chunk]
    {
      pushed := pushed + [chunk];
    }

    /**
     * `socket._transform(chunk)` (index.js:193-196): the inbound chunk is fed
     * to the decoder; `messages` are the payloads it emits, in order, each of
     * which the source emits as a `'message'` event.
     */
    method Transform(chunk: seq<byte>) returns (messages: seq<seq<byte>>)
      requires Valid()
      modifies decoder
      ensures Valid()
      ensures messages == Drain(old(decoder.bs) + [chunk], decoder.order).0
      ensures decoder.bs == Drain(old(decoder.bs) + [chunk], decoder.order).1
    {
      messages := decoder.Feed(chunk);
    }
  }

  /**
   * What `send` puts on the wire is not framed: no chunk is its own frame,
   * and a peer reading a pushed chunk with the same length-prefixed framing
   * never decodes that chunk from it.
   */
  lemma SendIsNotFramed(c: seq<byte>)
    requires |c| < Uint32Limit
    ensures Encode([c]) != c
    ensures Parse(c).0 != [c]
  {
    assert |Encode([c])| == |c| + PrefixSize;
    if Incomplete(c) {
      assert Parse(c).0 == [];
    } else {
      var n := Uint32LE(c);
      var payload := c[PrefixSize..PrefixSize + n];
      assert Parse(c).0 == [payload] + Parse(c[PrefixSize + n..]).0;
      assert |payload| < |c|;
    }
  }
}
