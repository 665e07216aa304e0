/** The relay wire format of crates/tea-agent/src/detach.rs: `[kind][length, big-endian][payload]`. */
module Frames {
  import opened Utf8

  const MAX_FRAME: nat := 4 * 1024 * 1024

  datatype Frame = Frame(kind: byte, payload: seq<byte>)

  datatype ReadResult = EndOfStream | Invalid | Got(frame: Frame, rest: seq<byte>)

  function BigEndian(n: nat): (b: seq<byte>)
    requires n < 0x1_0000_0000
    ensures |b| == 4
  {
    [n / 0x100_0000, n / 0x1_0000 % 0x100, n / 0x100 % 0x100, n % 0x100]
  }

  function FromBigEndian(b: seq<byte>): nat
    requires |b| == 4
  {
    b[0] as int * 0x100_0000 + b[1] as int * 0x1_0000 + b[2] as int * 0x100 + b[3] as int
  }

  /** A payload whose length does not fit 32 bits is refused by the writer. */
  predicate Writable(f: Frame) {
    |f.payload| < 0x1_0000_0000
  }

  function Write(f: Frame): seq<byte>
    requires Writable(f)
  {
    [f.kind] + BigEndian(|f.payload|) + f.payload
  }

  /** A stream that ends inside the header reads as its end; one that ends inside the payload, or
      announces more than `MAX_FRAME` bytes, is an error. */
  function Read(stream: seq<byte>): ReadResult {
    if |stream| < 5 then EndOfStream
    else
      var length := FromBigEndian(stream[1..5]);
      if length > MAX_FRAME || |stream| < 5 + length then Invalid
      else Got(Frame(stream[0], stream[5..5 + length]), stream[5 + length..])
  }

  lemma BigEndianInverts(n: nat)
    requires n < 0x1_0000_0000
    ensures FromBigEndian(BigEndian(n)) == n
  {
    var a, b, c := n / 0x100, n / 0x1_0000, n / 0x100_0000;
    assert b == a / 0x100 && c == b / 0x100;
  }

  lemma WriteShape(f: Frame, rest: seq<byte>)
    requires Writable(f)
    ensures var s := Write(f) + rest;
            && |s| >= 5 && s[0] == f.kind && FromBigEndian(s[1..5]) == |f.payload|
            && s[5..] == f.payload + rest
  {
    BigEndianInverts(|f.payload|);
    var s := Write(f) + rest;
    assert s[1..5] == BigEndian(|f.payload|);
  }

  /** A written frame reads back, leaving what follows it, exactly when its payload is within the
      reader's limit. */
  lemma WrittenFrameReadsBack(f: Frame, rest: seq<byte>)
    requires Writable(f)
    ensures |f.payload| <= MAX_FRAME ==> Read(Write(f) + rest) == Got(f, rest)
    ensures |f.payload| > MAX_FRAME ==> Read(Write(f) + rest) == Invalid
  {
    WriteShape(f, rest);
    var s, n := Write(f) + rest, |f.payload|;
    assert s[5..5 + n] == s[5..][..n] == f.payload;
    assert s[5 + n..] == s[5..][n..] == rest;
  }

  // ----- Whole connections --------------------------------------------------------------------

  predicate Sendable(frames: seq<Frame>) {
    forall i :: 0 <= i < |frames| ==> |frames[i].payload| <= MAX_FRAME
  }

  function WriteAll(frames: seq<Frame>): seq<byte>
    requires Sendable(frames)
  {
    if frames == [] then [] else Write(frames[0]) + WriteAll(frames[1..])
  }

  /** Every frame read before the stream ends or turns invalid. */
  function ReadAll(stream: seq<byte>): seq<Frame>
    decreases |stream|
  {
    match Read(stream)
    case Got(f, rest) => [f] + ReadAll(rest)
    case _ => []
  }

  /** A connection cut after any number of bytes delivers a prefix of the frames sent on it; an
      uncut connection delivers all of them. */
  lemma {:induction false} ConnectionDeliversPrefix(frames: seq<Frame>, cut: nat)
    requires Sendable(frames) && cut <= |WriteAll(frames)|
    ensures ReadAll(WriteAll(frames)[..cut]) <= frames
    ensures cut == |WriteAll(frames)| ==> ReadAll(WriteAll(frames)[..cut]) == frames
  {
    if frames == [] {
    } else {
      var f, more := frames[0], WriteAll(frames[1..]);
      var n := |Write(f)|;
      if cut < n {
        CutFrameIsNotRead(f, more, cut);
      } else {
        TakePast(Write(f), more, cut);
        ReadAllUnfolds(f, more[..cut - n]);
        ConnectionDeliversPrefix(frames[1..], cut - n);
        assert frames == [f] + frames[1..];
      }
    }
  }

  lemma TakePast(a: seq<byte>, b: seq<byte>, cut: nat)
    requires |a| <= cut <= |a + b|
    ensures (a + b)[..cut] == a + b[..cut - |a|]
  {
  }

  lemma ReadAllUnfolds(f: Frame, rest: seq<byte>)
    requires |f.payload| <= MAX_FRAME
    ensures ReadAll(Write(f) + rest) == [f] + ReadAll(rest)
  {
    WrittenFrameReadsBack(f, rest);
  }

  lemma CutFrameIsNotRead(f: Frame, more: seq<byte>, cut: nat)
    requires |f.payload| <= MAX_FRAME && cut < |Write(f)|
    ensures !Read((Write(f) + more)[..cut]).Got?
  {
    var s := Write(f) + more;
    WriteShape(f, more);
    if cut >= 5 {
      assert s[..cut][1..5] == s[1..5];
    }
  }
}
