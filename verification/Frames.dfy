/** Length-prefixed frames on a byte stream. */
module Frames {
  import opened Options

  type byte = b: int | 0 <= b < 256

  const MAX_FRAME_SIZE := 16 * 1024 * 1024

  /** How a read can end without a frame. */
  datatype ReadError = Eof | UnexpectedEof | TooLarge

  function Header(n: nat): seq<byte> {
    [n / 0x100_0000 % 256, n / 0x1_0000 % 256, n / 0x100 % 256, n % 256]
  }

  function Length(h: seq<byte>): nat
    requires |h| == 4
  {
    (h[0] as int) * 0x100_0000 + (h[1] as int) * 0x1_0000 + (h[2] as int) * 0x100 + h[3] as int
  }

  /** The 4-byte big-endian length reads back as it was written, and the other way round. */
  lemma HeaderRoundTrip(n: nat, h: seq<byte>)
    requires n < 0x1_0000_0000 && |h| == 4
    ensures Length(Header(n)) == n
    ensures var w := Header(n);
            |w| == 4 && n == 0x100_0000 * (w[0] as int) + 0x1_0000 * (w[1] as int) + 0x100 * (w[2] as int) + w[3] as int
    ensures Length(h) < 0x1_0000_0000 && Header(Length(h)) == h
  {
    SplitBase(n / 0x1_0000, n / 0x100, n);
    var a, b, c, d := h[0] as int, h[1] as int, h[2] as int, h[3] as int;
    var m := Length(h);
    assert m == 256 * (256 * (256 * a + b) + c) + d;
    Shift(256 * (256 * a + b) + c, d);
    Shift(256 * a + b, c);
    Shift(a, b);
    DivTwice(m);
    assert m / 0x100_0000 == a && a % 256 == a;
  }

  lemma Shift(q: int, r: int)
    requires 0 <= q && 0 <= r < 256
    ensures (256 * q + r) / 256 == q && (256 * q + r) % 256 == r
  {
  }

  lemma DivTwice(n: nat)
    ensures n / 0x1_0000 == n / 256 / 256 && n / 0x100_0000 == n / 256 / 256 / 256
  {
  }

  lemma SplitBase(hi: nat, mid: nat, n: nat)
    requires n < 0x1_0000_0000 && hi == n / 0x1_0000 && mid == n / 0x100
    ensures n / 0x100_0000 < 256
    ensures n / 0x100_0000 * 0x100_0000 + hi % 256 * 0x1_0000 + mid % 256 * 0x100 + n % 256 == n
  {
    DivTwice(n);
  }

  function Frame(body: seq<byte>): seq<byte> { Header(|body|) + body }

  /** What `io.ReadFull` makes of a stream: end of file only if nothing at all could be read. */
  function Full(data: seq<byte>, n: nat): Result<seq<byte>, ReadError> {
    if n <= |data| then Ok(data[..n]) else if data == [] then Err(Eof) else Err(UnexpectedEof)
  }

  /** One frame off the front of the stream, and what is left of it. */
  function ReadOne(data: seq<byte>): (Result<seq<byte>, ReadError>, seq<byte>) {
    match Full(data, 4)
    case Err(e) => (Err(e), [])
    case Ok(h) =>
      var n := Length(h);
      if n > MAX_FRAME_SIZE then (Err(TooLarge), data[4..])
      else
        match Full(data[4..], n)
        case Err(e) => (Err(e), [])
        case Ok(body) => (Ok(body), data[4 + n..])
  }

  /** The stream takes `room` more bytes before a write fails. */
  class Writer {
    var sent: seq<byte>
    var room: nat

    constructor (room: nat)
      ensures sent == [] && this.room == room
    {
      sent, this.room := [], room;
    }

    /** A write that fails may have put out the first part of its bytes. */
    method Write(bytes: seq<byte>) returns (ok: bool)
      modifies this
      ensures ok <==> |bytes| <= old(room)
      ensures sent == old(sent) + (if ok then bytes else bytes[..old(room)])
      ensures room == if ok then old(room) - |bytes| else 0
    {
      ok := |bytes| <= room;
      if ok {
        sent, room := sent + bytes, room - |bytes|;
      } else {
        sent, room := sent + bytes[..room], 0;
      }
    }

    /**
     An oversized body is refused before anything is written. Otherwise the frame goes
     out, or, when the stream fails, as much of its front as the stream took.
     */
    method WriteFrame(body: seq<byte>) returns (ok: bool)
      modifies this
      ensures ok <==> |body| <= 16777216 && 4 + |body| <= old(room)
      ensures |body| > MAX_FRAME_SIZE ==> sent == old(sent)
      ensures |body| <= MAX_FRAME_SIZE ==>
                sent == old(sent) + (if ok then Frame(body) else Frame(body)[..old(room)])
    {
      if |body| > MAX_FRAME_SIZE { return false; }
      var hdr := PutHeader(|body|);
      ghost var was, room0 := sent, room;
      ok := Write(hdr[..]);
      if !ok {
        HeaderFront(|body|, body, room0);
        return;
      }
      ok := Write(body);
      HeaderThenBody(was, |body|, body, if ok then |body| else room0 - 4);
    }

    static method PutHeader(n: nat) returns (hdr: array<byte>)
      ensures fresh(hdr) && hdr[..] == Header(n)
    {
      hdr := new byte[4](_ => 0);
      hdr[0] := n / 0x100_0000 % 256;
      hdr[1] := n / 0x1_0000 % 256;
      hdr[2] := n / 0x100 % 256;
      hdr[3] := n % 256;
    }
  }

  lemma HeaderFront(n: nat, body: seq<byte>, k: nat)
    requires k < 4
    ensures Header(n)[..k] == (Header(n) + body)[..k]
  {
  }

  lemma HeaderThenBody(was: seq<byte>, n: nat, body: seq<byte>, k: nat)
    requires k <= |body|
    ensures was + Header(n) + body[..k] == was + (Header(n) + body)[..4 + k]
    ensures k == |body| ==> body[..k] == body && (Header(n) + body)[..4 + k] == Header(n) + body
  {
  }

  class Reader {
    var data: seq<byte>

    constructor (data: seq<byte>)
      ensures this.data == data
    {
      this.data := data;
    }

    /** Fills the whole buffer, or consumes what there is and fails. */
    method ReadFull(buf: array<byte>) returns (err: Option<ReadError>)
      modifies this, buf
      ensures match Full(old(data), buf.Length)
              case Ok(bytes) => err == None && buf[..] == bytes && data == old(data)[buf.Length..]
              case Err(e) => err == Some(e) && data == []
    {
      var n := buf.Length;
      if n > |data| {
        err := Some(if data == [] then Eof else UnexpectedEof);
        data := [];
        return;
      }
      for i := 0 to n
        invariant data == old(data) && buf[..i] == data[..i]
      {
        buf[i] := data[i];
      }
      data := data[n..];
      err := None;
    }

    method ReadFrame() returns (r: Result<seq<byte>, ReadError>)
      modifies this
      ensures (r, data) == ReadOne(old(data))
    {
      var hdr := new byte[4](_ => 0);
      var err := ReadFull(hdr);
      if err != None { return Err(err.value); }
      var n := Length(hdr[..]);
      if n > MAX_FRAME_SIZE { return Err(TooLarge); }
      var buf := new byte[n](_ => 0);
      err := ReadFull(buf);
      if err != None { return Err(err.value); }
      assert old(data)[4..][n..] == old(data)[4 + n..];
      r := Ok(buf[..]);
    }
  }

  // ----- whole streams -----

  function Wire(bodies: seq<seq<byte>>): seq<byte> {
    if bodies == [] then [] else Frame(bodies[0]) + Wire(bodies[1..])
  }

  predicate Fits(bodies: seq<seq<byte>>) {
    forall i :: 0 <= i < |bodies| ==> |bodies[i]| <= MAX_FRAME_SIZE
  }

  /** All frames up to the first failure, and that failure. */
  function ReadAll(data: seq<byte>): (seq<seq<byte>>, ReadError)
    decreases |data|
  {
    match ReadOne(data).0
    case Err(e) => ([], e)
    case Ok(body) =>
      var (more, e) := ReadAll(ReadOne(data).1);
      ([body] + more, e)
  }

  /** How many frames lie wholly within the first `k` bytes. */
  function WholeFrames(bodies: seq<seq<byte>>, k: nat): nat {
    if bodies == [] || k < 4 + |bodies[0]| then 0
    else 1 + WholeFrames(bodies[1..], k - 4 - |bodies[0]|)
  }

  /** How far the cut at `k` is into the first frame that is not whole. */
  function Overhang(bodies: seq<seq<byte>>, k: nat): nat {
    if bodies == [] || k < 4 + |bodies[0]| then k
    else Overhang(bodies[1..], k - 4 - |bodies[0]|)
  }

  lemma ReadFront(body: seq<byte>, rest: seq<byte>)
    requires |body| <= MAX_FRAME_SIZE
    ensures ReadOne(Frame(body) + rest) == (Ok(body), rest)
  {
    var data := Frame(body) + rest;
    assert data[..4] == Header(|body|);
    HeaderRoundTrip(|body|, data[..4]);
    assert data[4..][..|body|] == body && data[4 + |body|..] == rest;
  }

  /** How a read fails when the stream ends `k` bytes into a frame. */
  function CutError(k: nat): ReadError { if k == 0 || k == 4 then Eof else UnexpectedEof }

  /** A frame that is cut short: a clean end of file only after 0 or exactly 4 bytes. */
  lemma ReadPartial(body: seq<byte>, k: nat)
    requires |body| <= MAX_FRAME_SIZE && k < 4 + |body|
    ensures ReadOne(Frame(body)[..k]).0 == Err(CutError(k))
  {
    var data := Frame(body)[..k];
    if k >= 4 {
      assert data[..4] == Header(|body|);
      HeaderRoundTrip(|body|, data[..4]);
    }
  }

  /** The length that the first four bytes of a stream spell, high byte first. */
  function Spelled(data: seq<byte>): nat
    requires |data| >= 4
  {
    ((data[0] as int * 256 + data[1] as int) * 256 + data[2] as int) * 256 + data[3] as int
  }

  /**
   One read, exactly: an empty stream ends cleanly; a stream of less than four bytes, or
   of less than what they spell, is cut short and used up; more than 16 MiB is refused
   with just the four bytes taken off; otherwise the body and the rest of the stream.
   */
  lemma ReadOneExactly(data: seq<byte>)
    ensures |data| < 4 ==> ReadOne(data) == (Err(if data == [] then Eof else UnexpectedEof), [])
    ensures |data| >= 4 && Spelled(data) > 16777216 ==> ReadOne(data) == (Err(TooLarge), data[4..])
    ensures |data| >= 4 && Spelled(data) <= 16777216 ==>
              var n, left := Spelled(data), |data| - 4;
              ReadOne(data) == if n <= left then (Ok(data[4..4 + n]), data[4 + n..])
                               else (Err(if left == 0 then Eof else UnexpectedEof), [])
  {
    if |data| >= 4 {
      assert Length(data[..4]) == Spelled(data);
      assert data[4..4 + 0] == [];
      if Spelled(data) <= |data| - 4 {
        assert data[4..][..Spelled(data)] == data[4..4 + Spelled(data)];
      }
    }
  }

  lemma ReadAllFront(body: seq<byte>, rest: seq<byte>)
    requires |body| <= MAX_FRAME_SIZE
    ensures ReadAll(Frame(body) + rest) == ([body] + ReadAll(rest).0, ReadAll(rest).1)
  {
    ReadFront(body, rest);
  }

  lemma CutInside(body: seq<byte>, wire: seq<byte>, k: nat)
    requires |body| <= MAX_FRAME_SIZE && k < 4 + |body|
    ensures ReadAll((Frame(body) + wire)[..k]) == ([], CutError(k))
  {
    assert (Frame(body) + wire)[..k] == Frame(body)[..k];
    ReadPartial(body, k);
  }

  lemma CutBehind(body: seq<byte>, wire: seq<byte>, k: nat)
    requires |body| <= MAX_FRAME_SIZE && 4 + |body| <= k <= 4 + |body| + |wire|
    ensures var (more, e) := ReadAll(wire[..k - 4 - |body|]);
            ReadAll((Frame(body) + wire)[..k]) == ([body] + more, e)
  {
    assert (Frame(body) + wire)[..k] == Frame(body) + wire[..k - 4 - |body|];
    ReadAllFront(body, wire[..k - 4 - |body|]);
  }

  lemma CutLater(bodies: seq<seq<byte>>, k: nat, read: (seq<seq<byte>>, ReadError))
    requires bodies != [] && |bodies[0]| <= MAX_FRAME_SIZE && 4 + |bodies[0]| <= k <= |Wire(bodies)|
    requires ReadAll(Wire(bodies[1..])[..k - 4 - |bodies[0]|]) == read
    ensures ReadAll(Wire(bodies)[..k]) == ([bodies[0]] + read.0, read.1)
  {
    CutBehind(bodies[0], Wire(bodies[1..]), k);
  }

  /**
   A stream cut anywhere yields exactly the frames that are whole before the cut, and
   then fails. The failure reads as a clean end of file exactly when the cut falls on
   a frame boundary or right behind the header of a frame with a non-empty body.
   */
  lemma {:induction false} CutStream(bodies: seq<seq<byte>>, k: nat)
    requires Fits(bodies) && k <= |Wire(bodies)|
    ensures WholeFrames(bodies, k) <= |bodies|
    ensures ReadAll(Wire(bodies)[..k]) == (bodies[..WholeFrames(bodies, k)], CutError(Overhang(bodies, k)))
    decreases |bodies|
  {
    if bodies == [] {
      assert Wire(bodies)[..k] == [];
    } else if k < 4 + |bodies[0]| {
      CutInside(bodies[0], Wire(bodies[1..]), k);
    } else {
      var rest, j := bodies[1..], k - 4 - |bodies[0]|;
      CutStream(rest, j);
      CutLater(bodies, k, (rest[..WholeFrames(rest, j)], CutError(Overhang(rest, j))));
      FirstAndMore(bodies, WholeFrames(rest, j));
    }
  }

  lemma FirstAndMore(bodies: seq<seq<byte>>, n: nat)
    requires bodies != [] && n < |bodies|
    ensures [bodies[0]] + bodies[1..][..n] == bodies[..1 + n]
  {
  }

  /** Writing any list of bodies that fit and reading the stream gives the list back, then end of file. */
  lemma {:induction false} StreamRoundTrip(bodies: seq<seq<byte>>)
    requires Fits(bodies)
    ensures ReadAll(Wire(bodies)) == (bodies, Eof)
  {
    if bodies != [] {
      ReadAllFront(bodies[0], Wire(bodies[1..]));
      StreamRoundTrip(bodies[1..]);
      assert bodies == [bodies[0]] + bodies[1..];
    }
  }
}
