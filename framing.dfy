/** The framing contract a session calls into (include/utility/net/session.h:34-35), and what
    the receive loop of session.h:278-310 does with its verdicts, as functions on windows. */
module Framing {
  import opened Bytes

  /** parse_type: good, bad, less, indeterminate. */
  datatype Verdict = Good | Bad | Less | Indeterminate

  /** What the parser reports about a window: verdict, frame length, frame kind. */
  datatype Parsed = Parsed(verdict: Verdict, len: nat, kind: int)

  /** One frame handed to the receive callback. */
  datatype Frame = Frame(kind: int, payload: seq<byte>)

  /** The stated assumption about a parser: a `good` verdict names a frame that is
      non-empty and lies inside the window. The session does not check this itself. */
  ghost predicate FramingContract(parse: seq<byte> -> Parsed)
  {
    forall w {:trigger Fits(parse(w), w)} :: Fits(parse(w), w)
  }

  predicate Fits(p: Parsed, w: seq<byte>)
  {
    p.verdict == Good ==> 0 < p.len <= |w|
  }

  /** The payload bytes of `frames`, in order. */
  function PayloadBytes(frames: seq<Frame>): seq<byte>
  {
    if frames == [] then [] else frames[0].payload + PayloadBytes(frames[1..])
  }

  /** The payload bytes of two runs of frames are those of the first, then the second. */
  lemma {:induction false} PayloadBytesAppend(a: seq<Frame>, b: seq<Frame>)
    ensures PayloadBytes(a + b) == PayloadBytes(a) + PayloadBytes(b)
    decreases |a|
  {
    if a != [] {
      assert (a + b)[1..] == a[1..] + b;
      PayloadBytesAppend(a[1..], b);
    } else {
      assert a + b == b;
    }
  }

  lemma PayloadBytesCons(f: Frame, frames: seq<Frame>)
    ensures PayloadBytes([f] + frames) == f.payload + PayloadBytes(frames)
  {
    assert ([f] + frames)[1..] == frames;
  }

  /** The outcome of running the parse loop over one window: the frames dispatched, the
      bytes left in the window, and the verdict that ended the loop. */
  datatype Drained = Drained(frames: seq<Frame>, rest: seq<byte>, verdict: Verdict)

  /** The parse/dispatch loop over window `w`: each `good` verdict dispatches the first
      `len` bytes and consumes exactly them; any other verdict ends the loop. */
  function Drain(parse: seq<byte> -> Parsed, w: seq<byte>): (d: Drained)
    requires FramingContract(parse)
    // the loop ends on the first verdict that is not `good`, reported about the remainder
    ensures d.verdict != Good && parse(d.rest).verdict == d.verdict
    // the remainder is a suffix of the window
    ensures |d.rest| <= |w|
    decreases |w|
  {
    var p := parse(w);
    assert Fits(parse(w), w);
    if p.verdict == Good then
      var d := Drain(parse, w[p.len..]);
      Drained([Frame(p.kind, w[..p.len])] + d.frames, d.rest, d.verdict)
    else
      Drained([], w, p.verdict)
  }

  /** A head of `w` followed by two pieces that make up the rest of `w` is `w` again. */
  lemma JoinAt(w: seq<byte>, n: nat, a: seq<byte>, b: seq<byte>)
    requires n <= |w| && a + b == w[n..]
    ensures (w[..n] + a) + b == w
  {
    assert (w[..n] + a) + b == w[..n] + (a + b);
    assert w[..n] + w[n..] == w;
  }

  /** The dispatched frames followed by the remainder are exactly the window: every byte
      is consumed once, in order, and nothing is skipped. */
  lemma {:induction false} DrainSplits(parse: seq<byte> -> Parsed, w: seq<byte>)
    requires FramingContract(parse)
    ensures PayloadBytes(Drain(parse, w).frames) + Drain(parse, w).rest == w
    decreases |w|
  {
    var p := parse(w);
    assert Fits(parse(w), w);
    if p.verdict == Good {
      var head := w[..p.len];
      var d := Drain(parse, w[p.len..]);
      var dw := Drain(parse, w);
      assert dw.frames == [Frame(p.kind, head)] + d.frames && dw.rest == d.rest;
      DrainSplits(parse, w[p.len..]);
      PayloadBytesCons(Frame(p.kind, head), d.frames);
      JoinAt(w, p.len, PayloadBytes(d.frames), d.rest);
    }
  }

  /** The frames of one read, then a run `e` over what it left plus the later bytes,
      account for the bytes as each does alone. */
  lemma {:induction false} FeedJoin(frames: seq<Frame>, rest: seq<byte>, e: Drained, later: seq<byte>)
    requires PayloadBytes(e.frames) + e.rest <= rest + later
    ensures PayloadBytes(frames + e.frames) + e.rest <= PayloadBytes(frames) + rest + later
    ensures PayloadBytes(e.frames) + e.rest == rest + later ==>
              PayloadBytes(frames + e.frames) + e.rest == PayloadBytes(frames) + rest + later
  {
    PayloadBytesAppend(frames, e.frames);
    var u := PayloadBytes(e.frames) + e.rest;
    var head := PayloadBytes(frames);
    assert PayloadBytes(frames + e.frames) + e.rest == head + u;
    assert head + rest + later == head + (rest + later);
    assert (head + (rest + later))[..|head| + |u|] == head + u;
  }

  /** Successive successful reads: `chunks` arrive one after another on top of `window`;
      each read runs the loop, and a verdict other than `less` ends the session. */
  function Feed(parse: seq<byte> -> Parsed, window: seq<byte>, chunks: seq<seq<byte>>): (r: Drained)
    requires FramingContract(parse)
    // the frames dispatched followed by the bytes kept are the bytes that arrived, in
    // order: all of them while every read ends in `less`, a prefix once one does not
    ensures PayloadBytes(r.frames) + r.rest <= window + Flatten(chunks)
    ensures r.verdict == Less ==> PayloadBytes(r.frames) + r.rest == window + Flatten(chunks)
    ensures r.verdict != Good
    decreases |chunks|
  {
    if chunks == [] then Drained([], window, Less)
    else
      var d := Drain(parse, window + chunks[0]);
      DrainSplits(parse, window + chunks[0]);
      Associative(window, chunks[0], Flatten(chunks[1..]));
      if d.verdict != Less then d
      else
        var e := Feed(parse, d.rest, chunks[1..]);
        FeedJoin(d.frames, d.rest, e, Flatten(chunks[1..]));
        Drained(d.frames + e.frames, e.rest, e.verdict)
  }

  /** Feed's first read: it is Drain's run on the window plus the first chunk, continued
      over the later chunks only when that run ends in `less`. */
  lemma FeedStep(parse: seq<byte> -> Parsed, window: seq<byte>, chunks: seq<seq<byte>>)
    requires FramingContract(parse) && chunks != []
    ensures var d := Drain(parse, window + chunks[0]);
            Feed(parse, window, chunks)
              == if d.verdict != Less then d
                 else var e := Feed(parse, d.rest, chunks[1..]); Drained(d.frames + e.frames, e.rest, e.verdict)
  {
  }

  /** A parser for frames of a fixed length `n`, all of kind 0. */
  function FixedLength(n: nat): seq<byte> -> Parsed
  {
    w => if |w| >= n then Parsed(Good, n, 0) else Parsed(Less, 0, 0)
  }

  lemma FixedLengthHonoursContract(n: nat)
    requires n > 0
    ensures FramingContract(FixedLength(n))
  {
  }

  /** `w` cut into consecutive pieces of length `n`; a shorter tail is left out. */
  function Chunks(n: nat, w: seq<byte>): seq<seq<byte>>
    requires n > 0
    decreases |w|
  {
    if |w| < n then [] else [w[..n]] + Chunks(n, w[n..])
  }

  /** The tail of `w` shorter than `n` that is left once whole pieces are cut off. */
  function Leftover(n: nat, w: seq<byte>): (r: seq<byte>)
    requires n > 0
    ensures |r| < n
    decreases |w|
  {
    if |w| < n then w else Leftover(n, w[n..])
  }

  /** Frames of kind 0 carrying `payloads`. */
  function KindZero(payloads: seq<seq<byte>>): seq<Frame>
  {
    if payloads == [] then [] else [Frame(0, payloads[0])] + KindZero(payloads[1..])
  }

  lemma {:induction false} KindZeroAppend(a: seq<seq<byte>>, b: seq<seq<byte>>)
    ensures KindZero(a + b) == KindZero(a) + KindZero(b)
  {
    if a == [] {
      assert a + b == b;
    } else {
      assert (a + b)[1..] == a[1..] + b;
      KindZeroAppend(a[1..], b);
    }
  }

  /** With fixed-length framing the loop dispatches every whole frame of the window, in
      order, and keeps the shorter tail, waiting for more. */
  lemma {:induction false} FixedLengthDrain(n: nat, w: seq<byte>)
    requires n > 0
    ensures FramingContract(FixedLength(n))
    ensures Drain(FixedLength(n), w) == Drained(KindZero(Chunks(n, w)), Leftover(n, w), Less)
    decreases |w|
  {
    FixedLengthHonoursContract(n);
    if |w| >= n {
      FixedLengthDrain(n, w[n..]);
      assert ([w[..n]] + Chunks(n, w[n..]))[1..] == Chunks(n, w[n..]);
    }
  }

  /** Cutting `w + more` into pieces equals cutting `w`, then its leftover followed by `more`. */
  lemma {:induction false} ChunksResume(n: nat, w: seq<byte>, more: seq<byte>)
    requires n > 0
    ensures Chunks(n, w + more) == Chunks(n, w) + Chunks(n, Leftover(n, w) + more)
    ensures Leftover(n, w + more) == Leftover(n, Leftover(n, w) + more)
    decreases |w|
  {
    if |w| >= n {
      ChunksResume(n, w[n..], more);
      assert (w + more)[..n] == w[..n];
      assert (w + more)[n..] == w[n..] + more;
      assert [w[..n]] + (Chunks(n, w[n..]) + Chunks(n, Leftover(n, w) + more))
          == ([w[..n]] + Chunks(n, w[n..])) + Chunks(n, Leftover(n, w) + more);
    }
  }

  /** Chunk boundaries do not matter for fixed-length framing: feeding the chunks one read
      at a time dispatches the same frames, and leaves the same bytes, as one read of all
      of them would. */
  lemma {:induction false} FixedLengthFeed(n: nat, window: seq<byte>, chunks: seq<seq<byte>>)
    requires n > 0 && |window| < n
    ensures FramingContract(FixedLength(n))
    ensures var all := window + Flatten(chunks);
            Feed(FixedLength(n), window, chunks) == Drained(KindZero(Chunks(n, all)), Leftover(n, all), Less)
    decreases |chunks|
  {
    FixedLengthHonoursContract(n);
    var p := FixedLength(n);
    if chunks == [] {
      assert window + Flatten(chunks) == window;
    } else {
      var first := window + chunks[0];
      var later := Flatten(chunks[1..]);
      FeedStep(p, window, chunks);
      FixedLengthDrain(n, first);
      FixedLengthFeed(n, Leftover(n, first), chunks[1..]);
      ChunksResume(n, first, later);
      KindZeroAppend(Chunks(n, first), Chunks(n, Leftover(n, first) + later));
      Associative(window, chunks[0], later);
    }
  }

  /** The worked example: 10-byte frames, 25 bytes arriving in three reads of any sizes,
      give exactly two frames covering the first 20 bytes, and 5 bytes stay buffered. */
  lemma TwentyFiveBytesInThreeReads(a: seq<byte>, b: seq<byte>, c: seq<byte>)
    requires |a| + |b| + |c| == 25
    ensures FramingContract(FixedLength(10))
    ensures var all := a + b + c;
            Feed(FixedLength(10), [], [a, b, c])
              == Drained([Frame(0, all[..10]), Frame(0, all[10..20])], all[20..], Less)
  {
    var all := a + b + c;
    FixedLengthFeed(10, [], [a, b, c]);
    assert [] + Flatten([a, b, c]) == all by {
      assert Flatten([c]) == c + Flatten([]);
      assert [a, b, c][1..] == [b, c];
      assert [b, c][1..] == [c];
    }
    assert all[10..][..10] == all[10..20];
    assert all[10..][10..] == all[20..];
    assert Chunks(10, all[20..]) == [] && Leftover(10, all[20..]) == all[20..];
    assert Chunks(10, all[10..]) == [all[10..20]] + Chunks(10, all[20..]);
    assert Leftover(10, all[10..]) == Leftover(10, all[20..]);
    assert Chunks(10, all) == [all[..10]] + Chunks(10, all[10..]);
    assert KindZero(Chunks(10, all)) == [Frame(0, all[..10]), Frame(0, all[10..20])] by {
      var cs := [all[..10], all[10..20]];
      assert Chunks(10, all) == cs;
      assert cs[1..] == [all[10..20]];
      assert [all[10..20]][1..] == [];
      assert KindZero([all[10..20]]) == [Frame(0, all[10..20])] + KindZero([]);
      assert KindZero(cs) == [Frame(0, all[..10])] + KindZero([all[10..20]]);
    }
  }
}
