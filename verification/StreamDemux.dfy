/**
 Docker's multiplexed log streams: frames of an 8-byte header, whose last four
 bytes are the payload size, and the payload. Frames may be split over chunks.
 */
module StreamDemux {
  import opened Bytes

  /** `readUInt32BE(4)`. */
  function Size(b: seq<byte>): nat
    requires |b| >= 8
  {
    ((b[4] as int * 256 + b[5] as int) * 256 + b[6] as int) * 256 + b[7] as int
  }

  predicate HasFrame(b: seq<byte>) {
    |b| >= 8 && |b| >= 8 + Size(b)
  }

  /** The text of the whole frames at the front; each payload is decoded on its own. */
  function Text(b: seq<byte>, decode: seq<byte> -> string): string
    decreases |b|
  {
    if !HasFrame(b) then ""
    else decode(b[8..8 + Size(b)]) + Text(b[8 + Size(b)..], decode)
  }

  /** The bytes left over after the whole frames at the front. */
  function Tail(b: seq<byte>): (t: seq<byte>)
    ensures !HasFrame(t) && |t| <= |b|
    decreases |b|
  {
    if !HasFrame(b) then b else Tail(b[8 + Size(b)..])
  }

  class StreamDemuxer {
    var pending: seq<byte>
    const decode: seq<byte> -> string

    constructor (decode: seq<byte> -> string)
      ensures pending == [] && this.decode == decode
    {
      pending, this.decode := [], decode;
    }

    method Push(chunk: seq<byte>) returns (out: string)
      modifies this
      ensures out == Text(old(pending) + chunk, decode)
      ensures pending == Tail(old(pending) + chunk)
    {
      pending := pending + chunk;
      out := "";
      while |pending| >= 8
        invariant out + Text(pending, decode) == Text(old(pending) + chunk, decode)
        invariant Tail(pending) == Tail(old(pending) + chunk)
        decreases |pending|
      {
        var size := Size(pending);
        if |pending| < 8 + size { break; }
        assert out + (decode(pending[8..8 + size]) + Text(pending[8 + size..], decode))
            == (out + decode(pending[8..8 + size])) + Text(pending[8 + size..], decode);
        out := out + decode(pending[8..8 + size]);
        pending := pending[8 + size..];
      }
    }
  }

  // ---- chunking is invisible -----------------------------------------------------

  /** The first frame of a buffer is the first frame of every longer one. */
  lemma FrontFrame(a: seq<byte>, c: seq<byte>)
    requires HasFrame(a)
    ensures var n := 8 + Size(a);
      HasFrame(a + c) && Size(a + c) == Size(a) && (a + c)[8..n] == a[8..n] && (a + c)[n..] == a[n..] + c
  {
  }

  lemma {:induction false} TailContinues(a: seq<byte>, c: seq<byte>)
    ensures Tail(a + c) == Tail(Tail(a) + c)
    decreases |a|
  {
    if HasFrame(a) {
      FrontFrame(a, c);
      TailContinues(a[8 + Size(a)..], c);
    }
  }

  /** What is left over continues with the bytes that follow. */
  lemma {:induction false} DemuxContinues(a: seq<byte>, c: seq<byte>, decode: seq<byte> -> string)
    ensures Text(a + c, decode) == Text(a, decode) + Text(Tail(a) + c, decode)
    ensures Tail(a + c) == Tail(Tail(a) + c)
    decreases |a|
  {
    TailContinues(a, c);
    if HasFrame(a) {
      var n := 8 + Size(a);
      FrontFrame(a, c);
      DemuxContinues(a[n..], c, decode);
      JoinTexts(decode(a[8..n]), Text(a[n..], decode), Text(Tail(a) + c, decode));
    } else {
      assert "" + Text(a + c, decode) == Text(a + c, decode);
    }
  }

  /** The output of pushing chunks one by one, and what is pending at the end. */
  ghost function Pushes(pending: seq<byte>, chunks: seq<seq<byte>>, decode: seq<byte> -> string): (string, seq<byte>)
    decreases |chunks|
  {
    if chunks == [] then ("", pending)
    else
      var t := pending + chunks[0];
      var (out, left) := Pushes(Tail(t), chunks[1..], decode);
      (Text(t, decode) + out, left)
  }

  lemma {:induction false} PushesFrom(pending: seq<byte>, chunks: seq<seq<byte>>, decode: seq<byte> -> string)
    requires !HasFrame(pending)
    ensures Pushes(pending, chunks, decode) == (Text(pending + Join(chunks), decode), Tail(pending + Join(chunks)))
    decreases |chunks|
  {
    if chunks == [] {
      assert pending + Join(chunks) == pending;
    } else {
      var t, rest := pending + chunks[0], Join(chunks[1..]);
      assert pending + Join(chunks) == t + rest;
      PushesFrom(Tail(t), chunks[1..], decode);
      DemuxContinues(t, rest, decode);
    }
  }

  /** Any chunking gives the output and the pending tail of one push of all the bytes. */
  lemma ChunkingInvisible(chunks: seq<seq<byte>>, decode: seq<byte> -> string)
    ensures Pushes([], chunks, decode) == (Text(Join(chunks), decode), Tail(Join(chunks)))
  {
    PushesFrom([], chunks, decode);
    assert [] + Join(chunks) == Join(chunks);
  }

  // ---- the one-shot demultiplexer ---------------------------------------------------

  /** Frame by frame; a last payload that is cut off counts as far as it goes. */
  ghost function OneShot(b: seq<byte>, decode: seq<byte> -> string): string
    decreases |b|
  {
    if |b| < 8 then ""
    else if HasFrame(b) then decode(b[8..8 + Size(b)]) + OneShot(b[8 + Size(b)..], decode)
    else decode(b[8..])
  }

  /** What the one-shot reader makes of a cut-off last frame is all that sets it apart. */
  lemma {:induction false} OneShotIsText(b: seq<byte>, decode: seq<byte> -> string)
    ensures OneShot(b, decode) == Text(b, decode) + if |Tail(b)| >= 8 then decode(Tail(b)[8..]) else ""
    decreases |b|
  {
    if HasFrame(b) {
      var rest := b[8 + Size(b)..];
      OneShotIsText(rest, decode);
      JoinTexts(decode(b[8..8 + Size(b)]), Text(rest, decode), if |Tail(rest)| >= 8 then decode(Tail(rest)[8..]) else "");
    } else {
      assert forall t: string :: "" + t == t;
    }
  }

  /** Strips the headers of a complete buffer; a cut-off last payload is decoded too. */
  method Demultiplex(buf: seq<byte>, decode: seq<byte> -> string) returns (out: string)
    ensures out == Text(buf, decode) + if |Tail(buf)| >= 8 then decode(Tail(buf)[8..]) else ""
  {
    out := StripFrames(buf, decode);
    OneShotIsText(buf, decode);
  }

  /** The loop over the frames, by position. */
  method StripFrames(buf: seq<byte>, decode: seq<byte> -> string) returns (out: string)
    ensures out == OneShot(buf, decode)
  {
    out := "";
    var i := 0;
    StripStart(buf, decode);
    while i + 8 <= |buf|
      invariant 0 <= i && out + OneShot(After(buf, i), decode) == OneShot(buf, decode)
      decreases |buf| - i
    {
      var size := Size(buf[i..]);
      var end := if i + 8 + size <= |buf| then i + 8 + size else |buf|;
      StripStep(buf, i, size, end, out, OneShot(buf, decode), decode);
      out := out + decode(buf[i + 8..end]);
      i := i + 8 + size;
    }
    StripEnd(buf, i, out, decode);
  }

  ghost function After(buf: seq<byte>, i: nat): seq<byte> {
    if i <= |buf| then buf[i..] else []
  }

  lemma DemultiplexStep(buf: seq<byte>, i: nat, size: nat, end: nat, decode: seq<byte> -> string)
    requires i + 8 <= |buf| && size == Size(buf[i..])
    requires end == if i + 8 + size <= |buf| then i + 8 + size else |buf|
    ensures OneShot(After(buf, i), decode) == decode(buf[i + 8..end]) + OneShot(After(buf, i + 8 + size), decode)
  {
    var rest := buf[i..];
    SliceOfTail(buf, i, 8, end - i);
    if i + 8 + size > |buf| { assert rest[8..] == buf[i + 8..end]; }
  }

  lemma StripStart(buf: seq<byte>, decode: seq<byte> -> string)
    ensures "" + OneShot(After(buf, 0), decode) == OneShot(buf, decode)
  {
    assert After(buf, 0) == buf;
  }

  lemma StripEnd(buf: seq<byte>, i: nat, out: string, decode: seq<byte> -> string)
    requires i + 8 > |buf|
    ensures out + OneShot(After(buf, i), decode) == out
  {
    assert |After(buf, i)| < 8;
  }

  /** One round keeps text so far and text to come the whole text. */
  lemma StripStep(buf: seq<byte>, i: nat, size: nat, end: nat, out: string, whole: string, decode: seq<byte> -> string)
    requires i + 8 <= |buf| && size == Size(buf[i..])
    requires end == if i + 8 + size <= |buf| then i + 8 + size else |buf|
    requires out + OneShot(After(buf, i), decode) == whole
    ensures (out + decode(buf[i + 8..end])) + OneShot(After(buf, i + 8 + size), decode) == whole
  {
    DemultiplexStep(buf, i, size, end, decode);
    JoinTexts(out, decode(buf[i + 8..end]), OneShot(After(buf, i + 8 + size), decode));
  }

  lemma SliceOfTail(b: seq<byte>, i: nat, lo: nat, hi: nat)
    requires lo <= hi && i + hi <= |b|
    ensures b[i..][lo..hi] == b[i + lo..i + hi]
    ensures b[i..][hi..] == b[i + hi..]
  {
  }

  lemma JoinTexts(a: string, b: string, c: string)
    ensures a + (b + c) == (a + b) + c && b + "" == b
  {
  }

  // ---- whole frames --------------------------------------------------------------------

  datatype Frame = Frame(stream: byte, payload: seq<byte>)

  function Header(f: Frame): seq<byte>
    requires |f.payload| < 0x1_0000_0000
  {
    var n0 := |f.payload|;
    var n1 := n0 / 256;
    var n2 := n1 / 256;
    var n3 := n2 / 256;
    [f.stream, 0, 0, 0, n3 as byte, (n2 % 256) as byte, (n1 % 256) as byte, (n0 % 256) as byte]
  }

  ghost predicate Sendable(frames: seq<Frame>) {
    forall i | 0 <= i < |frames| :: |frames[i].payload| < 0x1_0000_0000
  }

  function Wire(frames: seq<Frame>): seq<byte>
    requires Sendable(frames)
  {
    if frames == [] then [] else Header(frames[0]) + frames[0].payload + Wire(frames[1..])
  }

  function Payloads(frames: seq<Frame>, decode: seq<byte> -> string): string {
    if frames == [] then "" else decode(frames[0].payload) + Payloads(frames[1..], decode)
  }

  lemma SizeOfHeader(f: Frame, rest: seq<byte>)
    requires |f.payload| < 0x1_0000_0000
    ensures Size(Header(f) + rest) == |f.payload|
  {
  }

  /** Whole frames leave nothing over, and both readers give the payloads' text. */
  lemma {:induction false} WholeFrames(frames: seq<Frame>, decode: seq<byte> -> string)
    requires Sendable(frames)
    ensures Text(Wire(frames), decode) == Payloads(frames, decode) && Tail(Wire(frames)) == []
    ensures OneShot(Wire(frames), decode) == Payloads(frames, decode)
  {
    if frames != [] {
      var f, rest := frames[0], Wire(frames[1..]);
      var b := Header(f) + f.payload + rest;
      WholeFrames(frames[1..], decode);
      assert b == Header(f) + (f.payload + rest);
      SizeOfHeader(f, f.payload + rest);
      assert b[8..8 + |f.payload|] == f.payload && b[8 + |f.payload|..] == rest;
      assert HasFrame(b);
    }
  }
}
