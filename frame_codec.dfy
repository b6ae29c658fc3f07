/**
 * The length-prefixed frame decoder of `_makeBufferCat` (index.js:18-61).
 *
 * A frame is a 4-byte length `L` followed by `L` payload bytes. The decoder
 * keeps a list of not-yet-consumed chunks `bs` and their byte count
 * `bsBytes`; each `feed(chunk)` appends the chunk and then extracts every
 * complete frame at the front.
 *
 * The pure functions below (`Drain`, `Run`) specify what a feed does; the
 * class `FrameDecoder` is the imperative decoder and is proved against them.
 * `Parse` is an independent reference decoder over a flat byte string, and
 * `Encode` the framing that a peer applies; the lemmas relate the three.
 */
module FrameCodec {
  import opened Wrappers

  /** One byte of a Node `Buffer`. */
  type byte = b: int | 0 <= b < 256

  /** `Uint32Array.BYTES_PER_ELEMENT`: the size of the length prefix. */
  const PrefixSize: nat := 4

  /** 2^32: every length prefix is below it. */
  const Uint32Limit: nat := 0x1_0000_0000

  /**
   * How the decoder makes chunk 0 hold the whole length prefix.
   * `AsWritten` is the source's loop, which pops chunks off the BACK of the
   * list and concatenates them in pop order; `InOrder` concatenates the
   * leading chunks in stream order, as the surrounding design intends.
   */
  datatype Merge = AsWritten | InOrder

  // ---------------------------------------------------------------------
  // Chunk lists
  // ---------------------------------------------------------------------

  /** The bytes of a chunk list in list order (`Buffer.concat(bs)`). */
  function Flatten(bs: seq<seq<byte>>): seq<byte>
  {
    if bs == [] then [] else bs[0] + Flatten(bs[1..])
  }

  /** The sum of the chunks' `byteLength`: the quantity `bsBytes` tracks. */
  function SumLengths(bs: seq<seq<byte>>): nat
  {
    if bs == [] then 0 else |bs[0]| + SumLengths(bs[1..])
  }

  function Reversed<T>(s: seq<T>): (r: seq<T>)
    ensures |r| == |s|
  {
    if s == [] then [] else Reversed(s[1..]) + [s[0]]
  }

  lemma {:induction false} LengthOfFlatten(bs: seq<seq<byte>>)
    ensures |Flatten(bs)| == SumLengths(bs)
  {
    if bs != [] {
      LengthOfFlatten(bs[1..]);
    }
  }

  lemma {:induction false} FlattenConcat(a: seq<seq<byte>>, b: seq<seq<byte>>)
    ensures Flatten(a + b) == Flatten(a) + Flatten(b)
  {
    if a == [] {
      assert a + b == b;
    } else {
      assert (a + b)[1..] == a[1..] + b;
      FlattenConcat(a[1..], b);
    }
  }

  lemma SumLengthsConcat(a: seq<seq<byte>>, b: seq<seq<byte>>)
    ensures SumLengths(a + b) == SumLengths(a) + SumLengths(b)
  {
    FlattenConcat(a, b);
    LengthOfFlatten(a + b);
    LengthOfFlatten(a);
    LengthOfFlatten(b);
  }

  lemma ConcatAssoc<T>(a: seq<T>, b: seq<T>, c: seq<T>)
    ensures (a + b) + c == a + (b + c)
  {
  }

  lemma SumLengthsSingle(c: seq<byte>)
    ensures SumLengths([c]) == |c|
  {
    assert [c][1..] == [];
  }

  lemma {:induction false} ReversedConcat<T>(a: seq<T>, b: seq<T>)
    ensures Reversed(a + b) == Reversed(b) + Reversed(a)
  {
    if a == [] {
      assert a + b == b;
    } else {
      assert (a + b)[1..] == a[1..] + b;
      ReversedConcat(a[1..], b);
    }
  }

  lemma {:induction false} ReversedTwice<T>(s: seq<T>)
    ensures Reversed(Reversed(s)) == s
  {
    if s != [] {
      ReversedConcat(Reversed(s[1..]), [s[0]]);
      assert Reversed([s[0]]) == [s[0]];
      ReversedTwice(s[1..]);
    }
  }

  lemma {:induction false} FlattenReversedKeepsBytes(bs: seq<seq<byte>>)
    ensures multiset(Flatten(Reversed(bs))) == multiset(Flatten(bs))
  {
    if bs != [] {
      FlattenConcat(Reversed(bs[1..]), [bs[0]]);
      assert Flatten([bs[0]]) == bs[0];
      FlattenReversedKeepsBytes(bs[1..]);
    }
  }

  // ---------------------------------------------------------------------
  // Length prefix and framing
  // ---------------------------------------------------------------------

  /**
   * The length prefix: bytes 0..3 read as a little-endian uint32 (the
   * source reads them through a `Uint32Array` view, in native byte order).
   */
  function Uint32LE(s: seq<byte>): (n: nat)
    requires |s| >= PrefixSize
    ensures n < Uint32Limit
  {
    s[0] as int + 256 * (s[1] as int) + 65536 * (s[2] as int) + 16777216 * (s[3] as int)
  }

  /** The prefix is read from the first four bytes only. */
  lemma Uint32LEAppend(s: seq<byte>, t: seq<byte>)
    requires |s| >= PrefixSize
    ensures Uint32LE(s + t) == Uint32LE(s)
  {
    var st := s + t;
    assert st[0] == s[0] && st[1] == s[1] && st[2] == s[2] && st[3] == s[3];
  }

  /** The four bytes a peer writes as the prefix of an `n`-byte payload. */
  function Uint32LEBytes(n: nat): (r: seq<byte>)
    requires n < Uint32Limit
    ensures |r| == PrefixSize && Uint32LE(r) == n
  {
    var q1 := n / 256;
    var q2 := q1 / 256;
    var q3 := q2 / 256;
    assert n == n % 256 + 256 * q1;
    assert q1 == q1 % 256 + 256 * q2;
    assert q2 == q2 % 256 + 256 * q3;
    assert q3 < 256;
    [n % 256, q1 % 256, q2 % 256, q3]
  }

  /** One frame: the length prefix followed by the payload. */
  function Frame(p: seq<byte>): (r: seq<byte>)
    requires |p| < Uint32Limit
    ensures |r| == PrefixSize + |p| && Uint32LE(r) == |p| && r[PrefixSize..] == p
  {
    Uint32LEBytes(|p|) + p
  }

  /** Every payload fits a uint32 length prefix. */
  predicate Framable(ps: seq<seq<byte>>)
  {
    forall i :: 0 <= i < |ps| ==> |ps[i]| < Uint32Limit
  }

  /** The byte stream a peer sends for a sequence of payloads. */
  function Encode(ps: seq<seq<byte>>): (r: seq<byte>)
    requires Framable(ps)
    ensures |r| == SumLengths(ps) + PrefixSize * |ps|
  {
    if ps == [] then [] else Frame(ps[0]) + Encode(ps[1..])
  }

  /** `s` does not start with a complete frame. */
  predicate Incomplete(s: seq<byte>)
  {
    |s| < PrefixSize || |s| < PrefixSize + Uint32LE(s)
  }

  /**
   * Reference decoder over one flat byte string: the complete frames at the
   * front, in order, and the incomplete remainder.
   */
  function Parse(s: seq<byte>): (r: (seq<seq<byte>>, seq<byte>))
    ensures Incomplete(r.1)
    ensures |r.1| <= |s|
    decreases |s|
  {
    if Incomplete(s) then ([], s)
    else
      var n := Uint32LE(s);
      var (frames, rest) := Parse(s[PrefixSize + n..]);
      ([s[PrefixSize..PrefixSize + n]] + frames, rest)
  }

  /** Decoding a frame followed by anything yields its payload first. */
  lemma ParseFrame(p: seq<byte>, t: seq<byte>)
    requires |p| < Uint32Limit
    ensures Parse(Frame(p) + t).0 == [p] + Parse(t).0
    ensures Parse(Frame(p) + t).1 == Parse(t).1
  {
    var s := Frame(p) + t;
    Uint32LEAppend(Frame(p), t);
    assert s[PrefixSize..PrefixSize + |p|] == p;
    assert s[PrefixSize + |p|..] == t;
  }

  /** Decoding the encoding of `ps`, followed by anything, yields `ps` first. */
  lemma {:induction false} ParseEncode(ps: seq<seq<byte>>, t: seq<byte>)
    requires Framable(ps)
    ensures Parse(Encode(ps) + t).0 == ps + Parse(t).0
    ensures Parse(Encode(ps) + t).1 == Parse(t).1
  {
    if ps == [] {
      assert Encode(ps) + t == t;
    } else {
      var tail := ps[1..];
      assert Framable(tail);
      var u := Encode(tail) + t;
      assert Encode(ps) == Frame(ps[0]) + Encode(tail);
      ConcatAssoc(Frame(ps[0]), Encode(tail), t);
      ParseFrame(ps[0], u);
      ParseEncode(tail, t);
      ConcatAssoc([ps[0]], tail, Parse(t).0);
      assert [ps[0]] + tail == ps;
    }
  }

  /** The flat decoder is a round trip for the framing. */
  lemma ParseRoundTrip(ps: seq<seq<byte>>)
    requires Framable(ps)
    ensures Parse(Encode(ps)).0 == ps && Parse(Encode(ps)).1 == []
  {
    ParseEncode(ps, []);
    assert Encode(ps) + [] == Encode(ps);
  }

  /** Appending bytes never disturbs the frames already complete. */
  lemma {:induction false} ParseAppend(s: seq<byte>, t: seq<byte>)
    ensures Parse(s + t).0 == Parse(s).0 + Parse(Parse(s).1 + t).0
    ensures Parse(s + t).1 == Parse(Parse(s).1 + t).1
    decreases |s|
  {
    if !Incomplete(s) {
      var n := Uint32LE(s);
      var st := s + t;
      Uint32LEAppend(s, t);
      var payload := s[PrefixSize..PrefixSize + n];
      var rest := s[PrefixSize + n..];
      assert st[PrefixSize..PrefixSize + n] == payload;
      assert st[PrefixSize + n..] == rest + t;
      assert !Incomplete(st);
      ParseAppend(rest, t);
      var left := Parse(rest).1;
      assert Parse(st).0 == [payload] + Parse(rest + t).0;
      assert Parse(s).0 == [payload] + Parse(rest).0;
      assert Parse(s).1 == left;
      ConcatAssoc([payload], Parse(rest).0, Parse(left + t).0);
    } else {
      assert Parse(s).0 == [] && Parse(s).1 == s;
    }
  }

  // ---------------------------------------------------------------------
  // The prefix merge (index.js:27-36)
  // ---------------------------------------------------------------------

  /**
   * The inner loop of the merge: moves chunks from the BACK of `kept` to the
   * end of `popped` (`bs.pop()`, `bsToConcat.push(b)`) until `popped` holds
   * at least four bytes.
   */
  function PopBack(kept: seq<seq<byte>>, popped: seq<seq<byte>>): (r: (seq<seq<byte>>, seq<seq<byte>>))
    requires SumLengths(kept) + SumLengths(popped) >= PrefixSize
    ensures r.0 + Reversed(r.1) == kept + Reversed(popped)
    ensures SumLengths(r.1) >= PrefixSize
    ensures SumLengths(r.0) + SumLengths(r.1) == SumLengths(kept) + SumLengths(popped)
    ensures SumLengths(popped) >= PrefixSize ==> r == (kept, popped)
    ensures SumLengths(popped) < PrefixSize ==>
      |r.1| > |popped| && SumLengths(r.1[..|r.1| - 1]) < PrefixSize
    decreases |kept|
  {
    if SumLengths(popped) >= PrefixSize then (kept, popped)
    else
      var n := |kept|;
      var last := kept[n - 1];
      assert kept[..n - 1] + [last] == kept;
      SumLengthsConcat(kept[..n - 1], [last]);
      SumLengthsConcat(popped, [last]);
      ReversedConcat(popped, [last]);
      assert Reversed([last]) == [last];
      assert kept[..n - 1] + Reversed(popped + [last]) == kept + Reversed(popped);
      assert (popped + [last])[..|popped|] == popped;
      PopBack(kept[..n - 1], popped + [last])
  }

  lemma {:induction false} SumLengthsReversed(bs: seq<seq<byte>>)
    ensures SumLengths(Reversed(bs)) == SumLengths(bs)
  {
    if bs != [] {
      SumLengthsReversed(bs[1..]);
      SumLengthsConcat(Reversed(bs[1..]), [bs[0]]);
      SumLengthsSingle(bs[0]);
    }
  }

  /**
   * The source's merge: the popped chunks concatenated in pop order become
   * the new chunk 0 (`bs.unshift(Buffer.concat(bsToConcat))`). The result is
   * a prefix of the old list behind one chunk holding the rest of the list
   * in REVERSED chunk order.
   */
  function MergeBack(bs: seq<seq<byte>>): (r: seq<seq<byte>>)
    requires SumLengths(bs) >= PrefixSize
    ensures 1 <= |r| <= |bs| && |r[0]| >= PrefixSize
    ensures r[1..] == bs[..|r| - 1]
    ensures r[0] == Flatten(Reversed(bs[|r| - 1..]))
    ensures SumLengths(r) == SumLengths(bs)
    ensures SumLengths(bs[|r|..]) < PrefixSize
  {
    var (kept, popped) := PopBack(bs, []);
    assert SumLengths([]) == 0;
    assert |popped| > 0 && SumLengths(popped[..|popped| - 1]) < PrefixSize;
    assert kept + Reversed(popped) == bs;
    LengthOfFlatten(popped);
    var r := [Flatten(popped)] + kept;
    assert r[1..] == kept;
    assert kept == bs[..|kept|];
    assert Reversed(popped) == bs[|kept|..];
    ReversedTwice(popped);
    FirstPoppedLast(kept, popped, bs);
    r
  }

  /**
   * All chunks popped before the last one: in list order they are the
   * chunks behind the last one popped, and hold fewer than four bytes.
   */
  lemma FirstPoppedLast(kept: seq<seq<byte>>, popped: seq<seq<byte>>, bs: seq<seq<byte>>)
    requires |popped| > 0 && SumLengths(popped[..|popped| - 1]) < PrefixSize
    requires kept + Reversed(popped) == bs
    ensures SumLengths(bs[|kept| + 1..]) < PrefixSize
  {
    var init := popped[..|popped| - 1];
    assert popped == init + [popped[|popped| - 1]];
    ReversedConcat(init, [popped[|popped| - 1]]);
    assert Reversed([popped[|popped| - 1]]) == [popped[|popped| - 1]];
    assert bs[|kept| + 1..] == Reversed(init);
    SumLengthsReversed(init);
  }

  /** Moving the popped chunks, concatenated, to the front keeps every byte. */
  lemma PoppedToFrontKeepsBytes(kept: seq<seq<byte>>, popped: seq<seq<byte>>)
    ensures multiset(Flatten([Flatten(popped)] + kept)) == multiset(Flatten(kept + Reversed(popped)))
  {
    var x := Flatten(popped);
    FlattenConcat([x], kept);
    assert Flatten([x]) == x;
    FlattenConcat(kept, Reversed(popped));
    FlattenReversedKeepsBytes(popped);
    assert multiset(Flatten([x] + kept)) == multiset(x) + multiset(Flatten(kept));
    assert multiset(Flatten(kept + Reversed(popped))) ==
           multiset(Flatten(kept)) + multiset(Flatten(Reversed(popped)));
  }

  /** The source's merge keeps every buffered byte (and only reorders them). */
  lemma MergeBackKeepsBytes(bs: seq<seq<byte>>)
    requires SumLengths(bs) >= PrefixSize
    ensures multiset(Flatten(MergeBack(bs))) == multiset(Flatten(bs))
  {
    var kept := PopBack(bs, []).0;
    var popped := PopBack(bs, []).1;
    assert kept + Reversed(popped) == bs;
    assert MergeBack(bs) == [Flatten(popped)] + kept;
    PoppedToFrontKeepsBytes(kept, popped);
  }

  /** The corrected merge's loop: takes leading chunks in stream order. */
  function TakeFront(rest: seq<seq<byte>>, taken: seq<seq<byte>>): (r: (seq<seq<byte>>, seq<seq<byte>>))
    requires SumLengths(rest) + SumLengths(taken) >= PrefixSize
    ensures r.0 + r.1 == taken + rest
    ensures SumLengths(r.0) >= PrefixSize
    ensures SumLengths(taken) >= PrefixSize ==> r == (taken, rest)
    ensures SumLengths(taken) < PrefixSize ==>
      |r.0| > |taken| && SumLengths(r.0[..|r.0| - 1]) < PrefixSize
    decreases |rest|
  {
    if SumLengths(taken) >= PrefixSize then (taken, rest)
    else
      SumLengthsConcat(taken, [rest[0]]);
      assert (taken + [rest[0]]) + rest[1..] == taken + rest;
      assert (taken + [rest[0]])[..|taken|] == taken;
      TakeFront(rest[1..], taken + [rest[0]])
  }

  /** The corrected merge: the leading chunks, concatenated in order. */
  function MergeInOrder(bs: seq<seq<byte>>): (r: seq<seq<byte>>)
    requires SumLengths(bs) >= PrefixSize
    ensures |r| >= 1 && |r[0]| >= PrefixSize
    ensures Flatten(r) == Flatten(bs)
  {
    var (taken, rest) := TakeFront(bs, []);
    LengthOfFlatten(taken);
    FlattenConcat(taken, rest);
    var r := [Flatten(taken)] + rest;
    assert r[1..] == rest;
    r
  }

  /** Chunk 0 already holds the prefix, or the prefix is not yet buffered. */
  predicate FrontReady(bs: seq<seq<byte>>)
  {
    bs == [] || |bs[0]| >= PrefixSize || SumLengths(bs) < PrefixSize
  }

  /** The merge loop (index.js:27-36): afterwards chunk 0 holds the prefix. */
  function Normalize(bs: seq<seq<byte>>, m: Merge): (r: seq<seq<byte>>)
    requires SumLengths(bs) >= PrefixSize
    ensures |r| >= 1 && |r[0]| >= PrefixSize
    ensures SumLengths(r) == SumLengths(bs)
    ensures multiset(Flatten(r)) == multiset(Flatten(bs))
    ensures m == InOrder ==> Flatten(r) == Flatten(bs)
    ensures FrontReady(bs) ==> r == bs
  {
    if |bs[0]| >= PrefixSize then bs
    else if m == AsWritten then
      MergeBackKeepsBytes(bs);
      MergeBack(bs)
    else
      var r := MergeInOrder(bs);
      LengthOfFlatten(r);
      LengthOfFlatten(bs);
      r
  }

  // ---------------------------------------------------------------------
  // What one feed does (index.js:25-59)
  // ---------------------------------------------------------------------

  /** What is kept after an extraction: the tail, unless it is empty (index.js:50-52). */
  function Leftover(tail: seq<byte>): (r: seq<seq<byte>>)
    ensures SumLengths(r) == |tail| && Flatten(r) == tail
    ensures |r| <= 1 && forall i :: 0 <= i < |r| ==> r[i] != []
  {
    SumLengthsSingle(tail);
    if |tail| > 0 then [tail] else []
  }

  /**
   * One pass of the `for (;;)` body: it either breaks, leaving the chunk
   * list `left`, or emits `payload` and continues with the chunk list `next`.
   */
  datatype Pass = Stop(left: seq<seq<byte>>) | Emit(payload: seq<byte>, next: seq<seq<byte>>)

  /** One pass of the extraction loop (index.js:26-58) on the chunk list `bs`. */
  function Extract(bs: seq<seq<byte>>, m: Merge): (r: Pass)
    ensures r.Emit? ==> SumLengths(r.next) + PrefixSize + |r.payload| == SumLengths(bs)
    ensures r.Emit? ==> |r.next| <= 1 && forall i :: 0 <= i < |r.next| ==> r.next[i] != []
    ensures SumLengths(bs) < PrefixSize ==> r == Stop(bs)
    ensures SumLengths(bs) >= PrefixSize ==>
      var ns := Normalize(bs, m);
      var b := Flatten(ns);
      var n := Uint32LE(ns[0]);
      (SumLengths(ns) < PrefixSize + n ==> r == Stop(ns)) &&
      (SumLengths(ns) >= PrefixSize + n ==>
         |b| >= PrefixSize + n && r.Emit? &&
         r.payload == b[PrefixSize..PrefixSize + n] && Flatten(r.next) == b[PrefixSize + n..])
  {
    if SumLengths(bs) < PrefixSize then Stop(bs)
    else
      var ns := Normalize(bs, m);
      var n := Uint32LE(ns[0]);
      if SumLengths(ns) < PrefixSize + n then Stop(ns)
      else
        var b := Flatten(ns);
        LengthOfFlatten(ns);
        var tail := b[PrefixSize + n..];
        var next := Leftover(tail);
        Emit(b[PrefixSize..PrefixSize + n], next)
  }

  /**
   * The extraction loop run on the chunk list `bs`: the payloads emitted,
   * in order, and the chunk list left behind.
   */
  function Drain(bs: seq<seq<byte>>, m: Merge): (r: (seq<seq<byte>>, seq<seq<byte>>))
    decreases SumLengths(bs)
  {
    match Extract(bs, m)
    case Stop(left) => ([], left)
    case Emit(payload, next) =>
      var (frames, rest) := Drain(next, m);
      ([payload] + frames, rest)
  }

  /**
   * A feed accounts for every buffered byte: each payload emitted plus its
   * four prefix bytes, and the list left behind, add up to what it started with.
   */
  lemma {:induction false} DrainKeepsBytes(bs: seq<seq<byte>>, m: Merge)
    ensures var r := Drain(bs, m);
      SumLengths(r.0) + PrefixSize * |r.0| + SumLengths(r.1) == SumLengths(bs)
    decreases SumLengths(bs)
  {
    match Extract(bs, m)
    case Stop(_) =>
    case Emit(payload, next) =>
      DrainKeepsBytes(next, m);
      SumLengthsConcat([payload], Drain(next, m).0);
      SumLengthsSingle(payload);
  }

  /** A run of feeds, one per chunk of `cs`, starting from the chunk list `bs`. */
  function Run(bs: seq<seq<byte>>, cs: seq<seq<byte>>, m: Merge): (r: (seq<seq<byte>>, seq<seq<byte>>))
    ensures SumLengths(r.0) + PrefixSize * |r.0| + SumLengths(r.1) == SumLengths(bs) + SumLengths(cs)
    decreases |cs|
  {
    if cs == [] then ([], bs)
    else
      var (frames, rest) := Drain(bs + [cs[0]], m);
      var (later, left) := Run(rest, cs[1..], m);
      DrainKeepsBytes(bs + [cs[0]], m);
      SumLengthsConcat(bs, [cs[0]]);
      SumLengthsSingle(cs[0]);
      SumLengthsConcat(frames, later);
      (frames + later, left)
  }

  /** Along the run, every prefix read finds the prefix whole in chunk 0. */
  predicate PrefixNeverSplit(bs: seq<seq<byte>>, cs: seq<seq<byte>>)
    decreases |cs|
  {
    cs == [] || (FrontReady(bs + [cs[0]]) && PrefixNeverSplit(Drain(bs + [cs[0]], AsWritten).1, cs[1..]))
  }

  // ---------------------------------------------------------------------
  // Properties of one feed
  // ---------------------------------------------------------------------

  /**
   * Below four bytes, or below the four plus `L` bytes the prefix announces,
   * a feed emits nothing and keeps every buffered byte.
   */
  lemma DrainIncomplete(bs: seq<seq<byte>>, m: Merge)
    requires SumLengths(bs) < PrefixSize ||
             SumLengths(bs) < PrefixSize + Uint32LE(Normalize(bs, m)[0])
    ensures Drain(bs, m).0 == []
    ensures SumLengths(Drain(bs, m).1) == SumLengths(bs)
    ensures multiset(Flatten(Drain(bs, m).1)) == multiset(Flatten(bs))
  {
  }

  /**
   * When chunk 0 holds the prefix the decoder agrees with the flat
   * reference decoder: the same payloads, and the same bytes left over.
   */
  lemma {:induction false} DrainMatchesParse(bs: seq<seq<byte>>, m: Merge)
    requires FrontReady(bs)
    ensures Drain(bs, m).0 == Parse(Flatten(bs)).0
    ensures Flatten(Drain(bs, m).1) == Parse(Flatten(bs)).1
    decreases SumLengths(bs)
  {
    LengthOfFlatten(bs);
    if SumLengths(bs) >= PrefixSize {
      var b := Flatten(bs);
      assert b == bs[0] + Flatten(bs[1..]);
      assert Uint32LE(b) == Uint32LE(bs[0]);
      match Extract(bs, m)
      case Stop(_) =>
      case Emit(_, next) =>
        DrainMatchesParse(next, m);
    }
  }

  /** A feed starts with the merge: draining is draining the merged list. */
  lemma DrainNormalizes(bs: seq<seq<byte>>, m: Merge)
    requires SumLengths(bs) >= PrefixSize
    ensures Drain(bs, m) == Drain(Normalize(bs, m), m)
  {
    var ns := Normalize(bs, m);
    assert Normalize(ns, m) == ns;
    assert Extract(bs, m) == Extract(ns, m);
  }

  /** With the corrected merge, every chunk list drains like its flat bytes. */
  lemma InOrderDrainMatchesParse(bs: seq<seq<byte>>)
    ensures Drain(bs, InOrder).0 == Parse(Flatten(bs)).0
    ensures Flatten(Drain(bs, InOrder).1) == Parse(Flatten(bs)).1
  {
    if SumLengths(bs) < PrefixSize {
      DrainMatchesParse(bs, InOrder);
    } else {
      DrainNormalizes(bs, InOrder);
      DrainMatchesParse(Normalize(bs, InOrder), InOrder);
    }
  }

  /** What a pass stops on is a list that the next pass stops on unchanged. */
  lemma StopIsStable(bs: seq<seq<byte>>, m: Merge)
    requires Extract(bs, m).Stop?
    ensures Extract(Extract(bs, m).left, m) == Extract(bs, m)
  {
    if SumLengths(bs) >= PrefixSize {
      var ns := Normalize(bs, m);
      assert Normalize(ns, m) == ns;
    }
  }

  /** When the merged list holds a whole frame, the pass emits it. */
  lemma ExtractEmits(bs: seq<seq<byte>>, m: Merge)
    requires SumLengths(bs) >= PrefixSize
    requires SumLengths(bs) >= PrefixSize + Uint32LE(Normalize(bs, m)[0])
    ensures var ns := Normalize(bs, m);
            var n := Uint32LE(ns[0]);
            var b := Flatten(ns);
            |b| >= PrefixSize + n &&
            Extract(bs, m) == Emit(b[PrefixSize..PrefixSize + n], Leftover(b[PrefixSize + n..]))
  {
    LengthOfFlatten(Normalize(bs, m));
  }

  /** When the merged list holds no whole frame, the pass stops on it. */
  lemma ExtractIncomplete(bs: seq<seq<byte>>, m: Merge)
    requires SumLengths(bs) >= PrefixSize
    requires SumLengths(bs) < PrefixSize + Uint32LE(Normalize(bs, m)[0])
    ensures Extract(bs, m) == Stop(Normalize(bs, m))
  {
  }

  /** A pass that emits `payload` and leaves `next` adds `payload` in front of draining `next`. */
  lemma ExtractStep(bs: seq<seq<byte>>, m: Merge, payload: seq<byte>, next: seq<seq<byte>>)
    requires Extract(bs, m) == Emit(payload, next)
    ensures Drain(bs, m).0 == [payload] + Drain(next, m).0
    ensures Drain(bs, m).1 == Drain(next, m).1
  {
  }

  /** One emitting pass of a feed keeps the loop's account of what is left to emit. */
  lemma FeedStep(start: seq<seq<byte>>, bs: seq<seq<byte>>, done: seq<seq<byte>>,
                 payload: seq<byte>, next: seq<seq<byte>>, m: Merge)
    requires Extract(bs, m) == Emit(payload, next)
    requires done + Drain(bs, m).0 == Drain(start, m).0
    requires Drain(bs, m).1 == Drain(start, m).1
    ensures (done + [payload]) + Drain(next, m).0 == Drain(start, m).0
    ensures Drain(next, m).1 == Drain(start, m).1
  {
    ExtractStep(bs, m, payload, next);
    ConcatAssoc(done, [payload], Drain(next, m).0);
  }

  /** A pass that stops on `left` ends the drain there. */
  lemma ExtractStop(bs: seq<seq<byte>>, m: Merge, left: seq<seq<byte>>)
    requires Extract(bs, m) == Stop(left)
    ensures Drain(bs, m).0 == [] && Drain(bs, m).1 == left
    ensures Drain(left, m).0 == [] && Drain(left, m).1 == left
  {
    StopIsStable(bs, m);
  }

  /** One feed emits every complete frame: draining what is left emits nothing. */
  lemma {:induction false} DrainLeavesNoFrame(bs: seq<seq<byte>>, m: Merge)
    ensures Drain(Drain(bs, m).1, m).0 == []
    ensures Drain(Drain(bs, m).1, m).1 == Drain(bs, m).1
    decreases SumLengths(bs)
  {
    match Extract(bs, m)
    case Stop(_) =>
      StopIsStable(bs, m);
    case Emit(_, next) =>
      DrainLeavesNoFrame(next, m);
  }

  /**
   * After an extraction the buffer is at most one chunk, and never an empty
   * one (index.js:50-52).
   */
  lemma {:induction false} DrainLeavesOneChunk(bs: seq<seq<byte>>, m: Merge)
    requires Drain(bs, m).0 != []
    ensures |Drain(bs, m).1| <= 1
    ensures forall i :: 0 <= i < |Drain(bs, m).1| ==> Drain(bs, m).1[i] != []
    decreases SumLengths(bs)
  {
    var next := Extract(bs, m).next;
    if Drain(next, m).0 != [] {
      DrainLeavesOneChunk(next, m);
    } else if SumLengths(next) >= PrefixSize {
      assert FrontReady(next);
      assert Normalize(next, m) == next;
    }
  }

  // ---------------------------------------------------------------------
  // Properties of a run of feeds
  // ---------------------------------------------------------------------

  /** Moving the first chunk of `cs` to the buffer keeps the stream's bytes. */
  lemma MoveFirstChunk(bs: seq<seq<byte>>, cs: seq<seq<byte>>)
    requires cs != []
    ensures Flatten(bs) + Flatten(cs) == Flatten(bs + [cs[0]]) + Flatten(cs[1..])
  {
    FlattenConcat(bs, [cs[0]]);
    assert Flatten([cs[0]]) == cs[0];
    assert [cs[0]] + cs[1..] == cs;
    FlattenConcat([cs[0]], cs[1..]);
  }

  /**
   * A run of feeds decodes the concatenated stream like the flat reference
   * decoder, when either the corrected merge is used or the prefix is never
   * split across chunks when it is read.
   */
  lemma {:induction false} RunMatchesParse(bs: seq<seq<byte>>, cs: seq<seq<byte>>, m: Merge)
    requires Incomplete(Flatten(bs))
    requires m == InOrder || PrefixNeverSplit(bs, cs)
    ensures Run(bs, cs, m).0 == Parse(Flatten(bs) + Flatten(cs)).0
    ensures Flatten(Run(bs, cs, m).1) == Parse(Flatten(bs) + Flatten(cs)).1
    decreases |cs|
  {
    if cs == [] {
      assert Flatten(bs) + Flatten(cs) == Flatten(bs);
    } else {
      var fed := bs + [cs[0]];
      var head := Flatten(fed);
      var later := Flatten(cs[1..]);
      MoveFirstChunk(bs, cs);
      if m == InOrder {
        InOrderDrainMatchesParse(fed);
      } else {
        DrainMatchesParse(fed, m);
      }
      var d := Drain(fed, m);
      RunMatchesParse(d.1, cs[1..], m);
      ParseAppend(head, later);
    }
  }

  /**
   * Round trip, as written: a fresh decoder fed the encoded payloads in any
   * chunking that never splits a prefix it reads emits exactly the payloads.
   */
  lemma UnsplitChunkingRoundTrip(cs: seq<seq<byte>>, ps: seq<seq<byte>>)
    requires Framable(ps) && Flatten(cs) == Encode(ps)
    requires PrefixNeverSplit([], cs)
    ensures Run([], cs, AsWritten).0 == ps
    ensures Flatten(Run([], cs, AsWritten).1) == []
  {
    RunMatchesParse([], cs, AsWritten);
    assert Flatten([]) + Flatten(cs) == Encode(ps);
    ParseRoundTrip(ps);
  }

  /** Round trip for the whole stream delivered as one chunk, with either merge. */
  lemma OneChunkRoundTrip(ps: seq<seq<byte>>, m: Merge)
    requires Framable(ps)
    ensures Drain([Encode(ps)], m).0 == ps
    ensures Flatten(Drain([Encode(ps)], m).1) == []
  {
    assert FrontReady([Encode(ps)]);
    DrainMatchesParse([Encode(ps)], m);
    assert Flatten([Encode(ps)]) == Encode(ps);
    ParseRoundTrip(ps);
  }

  /** Round trip with the corrected merge, for EVERY chunking of the stream. */
  lemma InOrderAnyChunkingRoundTrip(cs: seq<seq<byte>>, ps: seq<seq<byte>>)
    requires Framable(ps) && Flatten(cs) == Encode(ps)
    ensures Run([], cs, InOrder).0 == ps
    ensures Flatten(Run([], cs, InOrder).1) == []
  {
    RunMatchesParse([], cs, InOrder);
    assert Flatten([]) + Flatten(cs) == Encode(ps);
    ParseRoundTrip(ps);
  }

  /** Four one-byte chunks holding the prefix [1, 0, 0, 0] are merged back to front. */
  lemma SplitPrefixMerge()
    ensures Normalize([[1], [0], [0], [0]], AsWritten) == [[0, 0, 0, 1]]
  {
    var four: seq<seq<byte>> := [[1], [0], [0], [0]];
    assert SumLengths(four[3..]) == 1;
    assert SumLengths(four[2..]) == 2;
    assert SumLengths(four[1..]) == 3;
    assert SumLengths(four) == 4;
    var r := MergeBack(four);
    assert |r| == 1;
    assert four[0..] == four;
    assert Reversed(four) == [[0], [0], [0], [1]] by {
      assert four[1..][1..][1..][1..] == [];
      assert Reversed(four[3..]) == [[0]];
      assert Reversed(four[2..]) == [[0], [0]];
      assert Reversed(four[1..]) == [[0], [0], [0]];
    }
    var rev: seq<seq<byte>> := [[0], [0], [0], [1]];
    assert Flatten(rev[3..]) == [1];
    assert Flatten(rev[2..]) == [0, 1];
    assert Flatten(rev[1..]) == [0, 0, 1];
    assert Flatten(rev) == [0, 0, 0, 1];
  }

  /** A run over `cs + [c]` is the run over `cs` followed by one more feed. */
  lemma {:induction false} RunSnoc(bs: seq<seq<byte>>, cs: seq<seq<byte>>, c: seq<byte>, m: Merge)
    ensures Run(bs, cs + [c], m).0 == Run(bs, cs, m).0 + Drain(Run(bs, cs, m).1 + [c], m).0
    ensures Run(bs, cs + [c], m).1 == Drain(Run(bs, cs, m).1 + [c], m).1
    decreases |cs|
  {
    if cs == [] {
      assert ([] + [c])[1..] == [];
    } else {
      assert (cs + [c])[0] == cs[0];
      assert (cs + [c])[1..] == cs[1..] + [c];
      var rest := Drain(bs + [cs[0]], m).1;
      RunSnoc(rest, cs[1..], c, m);
      var frames := Drain(bs + [cs[0]], m).0;
      ConcatAssoc(frames, Run(rest, cs[1..], m).0, Drain(Run(rest, cs[1..], m).1 + [c], m).0);
    }
  }

  /** A feed whose pass stops on `left` adds nothing to a run and leaves `left`. */
  lemma RunSnocStop(bs: seq<seq<byte>>, cs: seq<seq<byte>>, c: seq<byte>, m: Merge, left: seq<seq<byte>>)
    requires Extract(Run(bs, cs, m).1 + [c], m) == Stop(left)
    ensures Run(bs, cs + [c], m).0 == Run(bs, cs, m).0
    ensures Run(bs, cs + [c], m).1 == left
  {
    RunSnoc(bs, cs, c, m);
    ExtractStop(Run(bs, cs, m).1 + [c], m, left);
  }

  /** Feeding the first four one-byte chunks emits nothing and leaves the merged prefix. */
  lemma SplitPrefixFirstFeeds()
    ensures Run([], [[1], [0], [0], [0]], AsWritten).0 == []
    ensures Run([], [[1], [0], [0], [0]], AsWritten).1 == [[0, 0, 0, 1]]
  {
    var none: seq<seq<byte>> := [];
    var one: seq<seq<byte>> := none + [[1]];
    var two: seq<seq<byte>> := one + [[0]];
    var three: seq<seq<byte>> := two + [[0]];
    var four: seq<seq<byte>> := three + [[0]];
    assert four == [[1], [0], [0], [0]];
    var merged: seq<seq<byte>> := [[0, 0, 0, 1]];
    assert Run([], none, AsWritten).1 == [];
    assert SumLengths(one) == 1;
    RunSnocStop([], none, [1], AsWritten, one);
    SumLengthsConcat(one, [[0]]);
    SumLengthsSingle([0]);
    assert SumLengths(two) == 2;
    RunSnocStop([], one, [0], AsWritten, two);
    SumLengthsConcat(two, [[0]]);
    SumLengthsSingle([0]);
    assert SumLengths(three) == 3;
    RunSnocStop([], two, [0], AsWritten, three);
    SumLengthsConcat(three, [[0]]);
    SumLengthsSingle([0]);
    assert SumLengths(four) == 4;
    SplitPrefixMerge();
    assert Uint32LE(merged[0]) == 16777216;
    ExtractIncomplete(four, AsWritten);
    RunSnocStop([], three, [0], AsWritten, merged);
  }

  /**
   * The source's merge reorders a split prefix: the one-byte payload [7],
   * framed as [1, 0, 0, 0, 7] and fed one byte at a time, is never emitted;
   * the popped bytes [0, 0, 0, 1] are read as the length 16777216.
   */
  lemma SplitPrefixOneByteAtATime()
    ensures Encode([[7]]) == [1, 0, 0, 0, 7]
    ensures Parse(Encode([[7]])).0 == [[7]]
    ensures Run([], [[1], [0], [0], [0], [7]], AsWritten).0 == []
    ensures Run([], [[1], [0], [0], [0], [7]], AsWritten).1 == [[0, 0, 0, 1], [7]]
  {
    SplitPrefixFrame();
    SplitPrefixLastFeed();
  }

  /** The frame of the payload [7] is [1, 0, 0, 0, 7], and the flat reader recovers [7]. */
  lemma SplitPrefixFrame()
    ensures Encode([[7]]) == [1, 0, 0, 0, 7]
    ensures Parse(Encode([[7]])).0 == [[7]]
  {
    assert Uint32LEBytes(1) == [1, 0, 0, 0];
    assert Encode([[7]]) == Frame([7]) + Encode([]);
    ParseRoundTrip([[7]]);
  }

  /** The fifth byte lands behind the merged chunk, which announces 16777216 bytes. */
  lemma SplitPrefixLastFeed()
    ensures Run([], [[1], [0], [0], [0], [7]], AsWritten).0 == []
    ensures Run([], [[1], [0], [0], [0], [7]], AsWritten).1 == [[0, 0, 0, 1], [7]]
  {
    var cs: seq<seq<byte>> := [[1], [0], [0], [0]];
    var all: seq<seq<byte>> := cs + [[7]];
    assert all == [[1], [0], [0], [0], [7]];
    var merged: seq<seq<byte>> := [[0, 0, 0, 1]];
    var five: seq<seq<byte>> := merged + [[7]];
    assert five == [[0, 0, 0, 1], [7]];
    SumLengthsConcat(merged, [[7]]);
    SumLengthsSingle([0, 0, 0, 1]);
    SumLengthsSingle([7]);
    assert Uint32LE(five[0]) == 16777216;
    ExtractIncomplete(five, AsWritten);
    SplitPrefixFirstFeeds();
    RunSnocStop([], cs, [7], AsWritten, five);
  }

  // ---------------------------------------------------------------------
  // The loops of the merge (index.js:28-35)
  // ---------------------------------------------------------------------

  /**
   * `bs.pop()` until the popped chunks hold four bytes: returns what stays
   * in the list and the popped chunks in pop order.
   */
  method PopChunks(bs: seq<seq<byte>>) returns (kept: seq<seq<byte>>, popped: seq<seq<byte>>)
    requires SumLengths(bs) >= PrefixSize
    ensures kept == PopBack(bs, []).0 && popped == PopBack(bs, []).1
  {
    kept, popped := bs, [];
    var poppedBytes := 0;
    while poppedBytes < PrefixSize
      invariant poppedBytes == SumLengths(popped)
      invariant SumLengths(kept) + poppedBytes == SumLengths(bs)
      invariant PopBack(kept, popped) == PopBack(bs, [])
      decreases |kept|
    {
      var b := kept[|kept| - 1];
      assert kept[..|kept| - 1] + [b] == kept;
      SumLengthsConcat(kept[..|kept| - 1], [b]);
      SumLengthsConcat(popped, [b]);
      assert PopBack(kept, popped) == PopBack(kept[..|kept| - 1], popped + [b]);
      kept := kept[..|kept| - 1];
      popped := popped + [b];
      poppedBytes := poppedBytes + |b|;
    }
  }

  /** The corrected loop: takes leading chunks until they hold four bytes. */
  method TakeChunks(bs: seq<seq<byte>>) returns (taken: seq<seq<byte>>, rest: seq<seq<byte>>)
    requires SumLengths(bs) >= PrefixSize
    ensures taken == TakeFront(bs, []).0 && rest == TakeFront(bs, []).1
  {
    taken, rest := [], bs;
    var takenBytes := 0;
    while takenBytes < PrefixSize
      invariant takenBytes == SumLengths(taken)
      invariant SumLengths(rest) + takenBytes == SumLengths(bs)
      invariant TakeFront(rest, taken) == TakeFront(bs, [])
      decreases |rest|
    {
      var b := rest[0];
      SumLengthsConcat(taken, [b]);
      assert TakeFront(rest, taken) == TakeFront(rest[1..], taken + [b]);
      rest := rest[1..];
      taken := taken + [b];
      takenBytes := takenBytes + |b|;
    }
  }

  // ---------------------------------------------------------------------
  // The decoder object (index.js:18-61)
  // ---------------------------------------------------------------------

  /** The closure state of `_makeBufferCat`: `bs` and `bsBytes`. */
  class FrameDecoder {
    /** How chunk 0 is completed; the source's decoder uses `AsWritten`. */
    const order: Merge
    var bs: seq<seq<byte>>
    var bsBytes: nat

    /** `bsBytes` is the sum of `byteLength` over `bs` (index.js:22-23, 41-42, 49-52). */
    ghost predicate Valid()
      reads this
    {
      bsBytes == SumLengths(bs)
    }

    constructor (order: Merge)
      ensures Valid() && this.order == order && bs == []
    {
      this.order := order;
      bs := [];
      bsBytes := 0;
    }

    /**
     * `feed(chunk)`: appends the chunk, then emits every complete frame, in
     * arrival order (the `onmessage` calls), returned here as `messages`.
     */
    method Feed(chunk: seq<byte>) returns (messages: seq<seq<byte>>)
      requires Valid()
      modifies this
      ensures Valid()
      ensures messages == Drain(old(bs) + [chunk], order).0
      ensures bs == Drain(old(bs) + [chunk], order).1
    {
      SumLengthsConcat(bs, [chunk]);
      SumLengthsSingle(chunk);
      bs := bs + [chunk];
      bsBytes := bsBytes + |chunk|;
      ghost var start := bs;
      messages := [];
      while true
        invariant Valid()
        invariant messages + Drain(bs, order).0 == Drain(start, order).0
        invariant Drain(bs, order).1 == Drain(start, order).1
        decreases bsBytes
      {
        ghost var before := bs;
        var message := Pass();
        match message {
          case None =>
            ExtractStop(before, order, bs);
            break;
          case Some(payload) =>
            FeedStep(start, before, messages, payload, bs, order);
            messages := messages + [payload];
        }
      }
    }

    /**
     * One pass of the `for (;;)` body (index.js:26-58): below four bytes it
     * breaks; otherwise it merges the prefix into chunk 0 and, when a whole
     * frame is buffered, emits its payload and keeps the tail, else breaks.
     */
    method Pass() returns (message: Option<seq<byte>>)
      requires Valid()
      modifies this
      ensures Valid()
      ensures message.Some? ==> Extract(old(bs), order) == Emit(message.value, bs)
      ensures message.None? ==> Extract(old(bs), order) == Stop(bs)
    {
      if bsBytes >= PrefixSize {
        ghost var before := bs;
        MergePrefix();
        ghost var merged := bs;
        var n := Uint32LE(bs[0]);
        if bsBytes >= PrefixSize + n {
          var b := if |bs| == 1 then bs[0] else Flatten(bs);
          assert b == Flatten(merged);
          LengthOfFlatten(merged);
          ExtractEmits(before, order);
          bs := [];
          var payload := b[PrefixSize..PrefixSize + n];
          var tail := b[PrefixSize + n..];
          bsBytes := bsBytes - (PrefixSize + n);
          if |tail| > 0 {
            bs := [tail];
          }
          assert bs == Leftover(tail);
          assert Extract(before, order) == Emit(payload, bs);
          message := Some(payload);
        } else {
          ExtractIncomplete(before, order);
          message := None;
        }
      } else {
        message := None;
      }
    }

    /**
     * The merge loop (index.js:27-36): while chunk 0 is shorter than the
     * prefix, chunks are popped off the back until they hold four bytes,
     * and their concatenation becomes chunk 0.
     */
    method MergePrefix()
      requires Valid() && bsBytes >= PrefixSize
      modifies this
      ensures Valid() && bsBytes == old(bsBytes)
      ensures bs == Normalize(old(bs), order)
    {
      ghost var start := bs;
      ghost var merged := false;
      while |bs[0]| < PrefixSize
        invariant Valid() && bsBytes == old(bsBytes) && |bs| >= 1
        invariant bs == if merged then Normalize(start, order) else start
        decreases if |bs[0]| < PrefixSize then 1 else 0
      {
        var toConcat, others;
        if order == AsWritten {
          others, toConcat := PopChunks(bs);
        } else {
          toConcat, others := TakeChunks(bs);
          SumLengthsConcat(toConcat, others);
        }
        assert SumLengths(toConcat) + SumLengths(others) == bsBytes;
        LengthOfFlatten(toConcat);
        SumLengthsSingle(Flatten(toConcat));
        SumLengthsConcat([Flatten(toConcat)], others);
        bs := [Flatten(toConcat)] + others;
        merged := true;
      }
    }
  }
}
