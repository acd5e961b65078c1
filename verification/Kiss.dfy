/**
  KISS framing on the serial link (kiss.py): an encoder and a byte-driven streaming decoder.
  The decoder is proved to agree with a batch definition of the format, "The KISS TNC"
  (Chepponis and Karn), section 2.
 */
module Kiss {
  import opened Bytes
  import opened Wrappers

  const FEND: byte := 0xC0
  const FESC: byte := 0xDB
  const TFEND: byte := 0xDC
  const TFESC: byte := 0xDD

  const COMMAND_DATA := 0x00
  const COMMAND_RETURN := 0xFF

  datatype KissFrame = KissFrame(port: int, command: int, data: bytes)
  datatype KissError = PortOutOfRange | CommandOutOfRange

  // ---- encoding ----

  predicate Encodable(f: KissFrame) {
    f.command == COMMAND_RETURN || (0 <= f.port <= 0x0F && 0 <= f.command <= 0x0F)
  }

  function TypeByte(f: KissFrame): byte
    requires Encodable(f)
  {
    if f.command == COMMAND_RETURN then 0xFF else 16 * f.port + f.command
  }

  function EscapeByte(b: byte): bytes {
    if b == FEND then [FESC, TFEND] else if b == FESC then [FESC, TFESC] else [b]
  }

  function Escape(data: bytes): bytes {
    if data == [] then [] else EscapeByte(data[0]) + Escape(data[1..])
  }

  lemma EscapeSplit(prefix: bytes, data: bytes)
    requires data != []
    ensures prefix + Escape(data) == prefix + EscapeByte(data[0]) + Escape(data[1..])
  {
  }

  /** FEND, type byte (never escaped), escaped data, FEND. */
  function Wire(f: KissFrame): bytes
    requires Encodable(f)
  {
    [FEND, TypeByte(f)] + Escape(f.data) + [FEND]
  }

  function WireAll(fs: seq<KissFrame>): bytes
    requires forall f :: f in fs ==> Encodable(f)
  {
    if fs == [] then [] else Wire(fs[0]) + WireAll(fs[1..])
  }

  method Encode(frame: KissFrame) returns (r: Result<bytes, KissError>)
    ensures r.Success? <==> Encodable(frame)
    ensures r.Success? ==> r.value == Wire(frame)
    ensures r.Failure? ==> r.error == if 0 <= frame.port <= 0x0F then CommandOutOfRange else PortOutOfRange
  {
    var typeByte: byte := 0xFF;
    if frame.command != COMMAND_RETURN {
      if !(0 <= frame.port <= 0x0F) {
        return Failure(PortOutOfRange);
      }
      if !(0 <= frame.command <= 0x0F) {
        return Failure(CommandOutOfRange);
      }
      typeByte := 16 * frame.port + frame.command;
    }
    var out: bytes := [FEND, typeByte];
    for i := 0 to |frame.data|
      invariant out + Escape(frame.data[i..]) == [FEND, typeByte] + Escape(frame.data)
    {
      var b := frame.data[i];
      ghost var before := out;
      EscapeSplit(before, frame.data[i..]);
      assert frame.data[i..][1..] == frame.data[i + 1..];
      if b == FEND {
        out := out + [FESC] + [TFEND];
      } else if b == FESC {
        out := out + [FESC] + [TFESC];
      } else {
        out := out + [b];
      }
      assert out == before + EscapeByte(b);
    }
    return Success(out + [FEND]);
  }

  function DataFrame(payload: bytes): KissFrame {
    KissFrame(0, COMMAND_DATA, payload)
  }

  // ---- decoding, byte by byte ----

  datatype State = State(buf: bytes, escaped: bool, inFrame: bool)
  datatype Output = Output(state: State, frames: seq<KissFrame>)

  const FRESH := State([], false, false)

  function BuildFrame(buf: bytes): Option<KissFrame> {
    if buf == [] then None
    else if buf[0] == 0xFF then Some(KissFrame(0, COMMAND_RETURN, []))
    else Some(KissFrame(buf[0] / 16, buf[0] % 16, buf[1..]))
  }

  function Emit(buf: bytes): seq<KissFrame> {
    match BuildFrame(buf)
    case Some(f) => [f]
    case None => []
  }

  /** One byte of input: the next state and the frames (at most one) it completes. */
  function Step(s: State, b: byte): Output {
    if b == FEND then
      Output(State([], false, true), if s.inFrame then Emit(s.buf) else [])
    else if !s.inFrame then
      Output(s, [])
    else if s.escaped then
      var literal := if b == TFEND then [FEND] else if b == TFESC then [FESC] else [];
      Output(State(s.buf + literal, false, true), [])
    else if b == FESC then
      Output(s.(escaped := true), [])
    else
      Output(s.(buf := s.buf + [b]), [])
  }

  function Run(s: State, data: bytes): Output
    decreases |data|
  {
    if data == [] then Output(s, [])
    else
      var first := Step(s, data[0]);
      var rest := Run(first.state, data[1..]);
      Output(rest.state, first.frames + rest.frames)
  }

  /** The first i bytes of data have led from s to `sofar`. */
  ghost predicate Fed(s: State, data: bytes, i: nat, sofar: Output)
    requires i <= |data|
  {
    var rest := Run(sofar.state, data[i..]);
    Run(s, data) == Output(rest.state, sofar.frames + rest.frames)
  }

  lemma FedOneMore(s: State, data: bytes, i: nat, sofar: Output)
    requires i < |data| && Fed(s, data, i, sofar)
    ensures var next := Step(sofar.state, data[i]);
            Fed(s, data, i + 1, Output(next.state, sofar.frames + next.frames))
  {
    assert data[i..][1..] == data[i + 1..];
  }

  class KissDecoder {
    var buf: bytes
    var escaped: bool
    var inFrame: bool

    constructor ()
      ensures Current() == FRESH
    {
      buf, escaped, inFrame := [], false, false;
    }

    ghost function Current(): State
      reads this
    {
      State(buf, escaped, inFrame)
    }

    method Feed(data: bytes) returns (completed: seq<KissFrame>)
      modifies this
      ensures Output(Current(), completed) == Run(old(Current()), data)
    {
      completed := [];
      ghost var start := Current();
      for i := 0 to |data|
        invariant Fed(start, data, i, Output(Current(), completed))
      {
        var b := data[i];
        ghost var next, done := Step(Current(), b), completed;
        FedOneMore(start, data, i, Output(Current(), completed));
        if b == FEND {
          if inFrame && buf != [] {
            var frame := BuildFrame(buf);
            if frame.Some? {
              completed := completed + [frame.value];
            }
          }
          buf := [];
          escaped := false;
          inFrame := true;
        } else if !inFrame {
          // noise before the first delimiter
        } else if escaped {
          if b == TFEND {
            buf := buf + [FEND];
          } else if b == TFESC {
            buf := buf + [FESC];
          }
          escaped := false;
        } else if b == FESC {
          escaped := true;
        } else {
          buf := buf + [b];
        }
        assert Current() == next.state;
        assert completed == done + next.frames;
      }
    }
  }

  // ---- chunking does not matter ----

  lemma {:induction false} RunConcat(s: State, a: bytes, b: bytes)
    ensures var mid := Run(s, a);
            var end := Run(mid.state, b);
            Run(s, a + b) == Output(end.state, mid.frames + end.frames)
    decreases |a|
  {
    if a == [] {
      assert a + b == b;
    } else {
      assert (a + b)[1..] == a[1..] + b;
      RunConcat(Step(s, a[0]).state, a[1..], b);
    }
  }

  lemma RunThen(s: State, a: bytes, mid: Output, b: bytes, end: Output)
    requires Run(s, a) == mid && Run(mid.state, b) == end
    ensures Run(s, a + b) == Output(end.state, mid.frames + end.frames)
  {
    RunConcat(s, a, b);
  }

  /** Feeding the chunks one after another. */
  function RunChunks(s: State, chunks: seq<bytes>): Output
    decreases |chunks|
  {
    if chunks == [] then Output(s, [])
    else
      var first := Run(s, chunks[0]);
      var rest := RunChunks(first.state, chunks[1..]);
      Output(rest.state, first.frames + rest.frames)
  }

  function Join(chunks: seq<bytes>): bytes {
    if chunks == [] then [] else chunks[0] + Join(chunks[1..])
  }

  lemma {:induction false} ChunkingIrrelevant(s: State, chunks: seq<bytes>)
    ensures RunChunks(s, chunks) == Run(s, Join(chunks))
    decreases |chunks|
  {
    if chunks != [] {
      RunConcat(s, chunks[0], Join(chunks[1..]));
      ChunkingIrrelevant(Run(s, chunks[0]).state, chunks[1..]);
    }
  }

  // ---- the batch specification: split, drop both ends, unescape, discard empties ----

  function Split(s: bytes): (parts: seq<bytes>)
    ensures |parts| >= 1
  {
    if s == [] then [[]]
    else
      var rest := Split(s[1..]);
      if s[0] == FEND then [[]] + rest else [[s[0]] + rest[0]] + rest[1..]
  }

  /** An escape followed by anything but TFEND or TFESC loses both bytes. */
  function Unescape(s: bytes): bytes {
    if s == [] then []
    else if s[0] != FESC then [s[0]] + Unescape(s[1..])
    else if |s| == 1 then []
    else
      (if s[1] == TFEND then [FEND] else if s[1] == TFESC then [FESC] else []) + Unescape(s[2..])
  }

  function FramesOf(parts: seq<bytes>): seq<KissFrame> {
    if parts == [] then [] else Emit(Unescape(parts[0])) + FramesOf(parts[1..])
  }

  function Decode(s: bytes): seq<KissFrame> {
    var parts := Split(s);
    if |parts| == 1 then [] else FramesOf(parts[1..|parts| - 1])
  }

  /** Unescaping that starts just after an escape byte when `escaped` holds. */
  function UnescapeFrom(escaped: bool, s: bytes): bytes {
    if escaped then Unescape([FESC] + s) else Unescape(s)
  }

  lemma UnescapeFromStep(escaped: bool, s: bytes)
    requires s != [] && s[0] != FEND
    ensures var next := Step(State([], escaped, true), s[0]).state;
            UnescapeFrom(escaped, s) == next.buf + UnescapeFrom(next.escaped, s[1..])
  {
    if escaped {
      assert ([FESC] + s)[2..] == s[1..];
    } else if s[0] == FESC {
      assert [FESC] + s[1..] == s;
    }
  }

  /** The frames of a stream that starts inside a frame: the open buffer joins the first segment. */
  function FramesInside(buf: bytes, escaped: bool, parts: seq<bytes>): seq<KissFrame>
    requires |parts| >= 1
  {
    if |parts| == 1 then []
    else Emit(buf + UnescapeFrom(escaped, parts[0])) + FramesOf(parts[1..|parts| - 1])
  }

  /** A delimiter closes the open segment. */
  lemma InsideDelimiter(buf: bytes, escaped: bool, rest: seq<bytes>)
    requires |rest| >= 1
    ensures FramesInside(buf, escaped, [[]] + rest) == Emit(buf) + FramesInside([], false, rest)
  {
    var parts: seq<bytes> := [[]] + rest;
    assert parts[1..|parts| - 1] == rest[..|rest| - 1];
    assert UnescapeFrom(escaped, []) == [];
    assert buf + [] == buf && [] + Unescape(rest[0]) == Unescape(rest[0]);
    if |rest| > 1 {
      assert rest[..|rest| - 1][1..] == rest[1..|rest| - 1];
    }
  }

  /** Any other byte goes into it. */
  lemma InsideByte(buf: bytes, escaped: bool, b: byte, rest: seq<bytes>)
    requires |rest| >= 1 && b != FEND
    ensures var next := Step(State(buf, escaped, true), b).state;
            FramesInside(buf, escaped, [[b] + rest[0]] + rest[1..]) == FramesInside(next.buf, next.escaped, rest)
  {
    var parts := [[b] + rest[0]] + rest[1..];
    UnescapeFromStep(escaped, parts[0]);
    assert parts[0][1..] == rest[0];
    assert parts[1..] == rest[1..];
    assert |rest| > 1 ==> parts[1..|parts| - 1] == rest[1..|rest| - 1];
    var next, alone := Step(State(buf, escaped, true), b).state, Step(State([], escaped, true), b).state;
    assert next.buf == buf + alone.buf && next.escaped == alone.escaped;
    assert buf + (alone.buf + UnescapeFrom(alone.escaped, rest[0])) == next.buf + UnescapeFrom(next.escaped, rest[0]);
  }

  lemma {:induction false} RunInFrame(buf: bytes, escaped: bool, s: bytes)
    ensures Run(State(buf, escaped, true), s).frames == FramesInside(buf, escaped, Split(s))
    decreases |s|
  {
    if s != [] {
      var next := Step(State(buf, escaped, true), s[0]).state;
      RunInFrame(next.buf, next.escaped, s[1..]);
      if s[0] == FEND {
        InsideDelimiter(buf, escaped, Split(s[1..]));
      } else {
        InsideByte(buf, escaped, s[0], Split(s[1..]));
      }
    }
  }

  lemma {:induction false} RunFromNoise(s: State, data: bytes)
    requires !s.inFrame
    ensures Run(s, data).frames == Decode(data)
  {
    if data != [] {
      var parts, rest := Split(data), Split(data[1..]);
      if data[0] == FEND {
        assert parts[1..] == rest;
        RunInFrame([], false, data[1..]);
        InsideDelimiter([], false, rest);
        assert Emit([]) == [];
        assert parts[1..|parts| - 1] == rest[..|rest| - 1];
        assert [] + Unescape(rest[0]) == Unescape(rest[0]);
        if |rest| > 1 {
          assert rest[..|rest| - 1][1..] == rest[1..|rest| - 1];
        }
      } else {
        RunFromNoise(s, data[1..]);
        assert |rest| > 1 ==> parts[1..|parts| - 1] == rest[1..|rest| - 1];
      }
    }
  }

  /** The streaming decoder, under any chunking, computes the batch specification. */
  lemma FeedRefinesSpec(chunks: seq<bytes>)
    ensures RunChunks(FRESH, chunks).frames == Decode(Join(chunks))
  {
    ChunkingIrrelevant(FRESH, chunks);
    RunFromNoise(FRESH, Join(chunks));
  }

  // ---- round trip and resynchronisation ----

  /** The frames whose wire form says what they are. */
  predicate Faithful(f: KissFrame)
    requires Encodable(f)
  {
    if f.command == COMMAND_RETURN then f.port == 0 && f.data == []
    else TypeByte(f) != FEND && TypeByte(f) != FESC && TypeByte(f) != 0xFF
  }

  /** What the decoder was in the middle of, delivered at the next delimiter. */
  function Leftover(s: State): seq<KissFrame> {
    if s.inFrame then Emit(s.buf) else []
  }

  const IDLE := State([], false, true)

  lemma RunEscapedByte(buf: bytes, b: byte)
    ensures Run(State(buf, false, true), EscapeByte(b)) == Output(State(buf + [b], false, true), [])
  {
    RunTwo(State(buf, false, true), EscapeByte(b));
  }

  lemma {:induction false} RunEscaped(buf: bytes, data: bytes)
    ensures Run(State(buf, false, true), Escape(data)) == Output(State(buf + data, false, true), [])
    decreases |data|
  {
    if data == [] {
      assert buf + data == buf;
    } else {
      var more := buf + [data[0]];
      RunEscaped(more, data[1..]);
      assert more + data[1..] == buf + data;
      EscapedByteThen(buf, data[0], Escape(data[1..]), Output(State(buf + data, false, true), []));
    }
  }

  lemma EscapedByteThen(buf: bytes, b: byte, rest: bytes, end: Output)
    requires Run(State(buf + [b], false, true), rest) == end
    ensures Run(State(buf, false, true), EscapeByte(b) + rest) == end
  {
    RunEscapedByte(buf, b);
    RunThen(State(buf, false, true), EscapeByte(b), Output(State(buf + [b], false, true), []), rest, end);
    assert [] + end.frames == end.frames;
  }

  /** Unfolds runs of one or two bytes. */
  lemma RunTwo(s: State, data: bytes)
    requires 1 <= |data| <= 2
    ensures |data| == 1 ==> Run(s, data) == Step(s, data[0])
    ensures |data| == 2 ==>
      var first := Step(s, data[0]);
      var second := Step(first.state, data[1]);
      Run(s, data) == Output(second.state, first.frames + second.frames)
  {
    var first := Step(s, data[0]);
    assert first.frames + [] == first.frames;
    if |data| == 2 {
      var second := Step(first.state, data[1]);
      assert data[1..][1..] == [];
      assert Run(first.state, data[1..]) == second by {
        assert second.frames + [] == second.frames;
      }
    }
  }

  /** The frames that come out of one encoding: the leftover, then what its body spells. */
  lemma RunWire(s: State, f: KissFrame)
    requires Encodable(f)
    ensures var begun := Step(IDLE, TypeByte(f));
            var body := Run(begun.state, Escape(f.data)).state;
            Run(s, Wire(f)) == Output(IDLE, Leftover(s) + Run(begun.state, Escape(f.data)).frames + Emit(body.buf))
            && begun.frames == []
  {
    var head, data, tail := [FEND, TypeByte(f)], Escape(f.data), [FEND];
    var begun := Step(IDLE, TypeByte(f));
    RunTwo(s, head);
    RunConcat(s, head + data, tail);
    RunConcat(s, head, data);
    RunTwo(Run(begun.state, data).state, tail);
    RunStaysInFrame(begun.state, data);
    assert Leftover(s) + [] == Leftover(s);
  }

  lemma {:induction false} RunStaysInFrame(s: State, data: bytes)
    requires s.inFrame
    ensures Run(s, data).state.inFrame
    decreases |data|
  {
    if data != [] {
      RunStaysInFrame(Step(s, data[0]).state, data[1..]);
    }
  }

  lemma WireOfFaithful(s: State, f: KissFrame)
    requires Encodable(f) && Faithful(f)
    ensures Run(s, Wire(f)) == Output(IDLE, Leftover(s) + [f])
  {
    RunWire(s, f);
    var begun := Step(IDLE, TypeByte(f)).state;
    assert begun == State([TypeByte(f)], false, true);
    RunEscaped(begun.buf, f.data);
    var body := [TypeByte(f)] + f.data;
    assert body[1..] == f.data;
    assert Emit(body) == [f];
  }

  lemma FirstOfMany(s: State, f: KissFrame, rest: seq<KissFrame>, wires: bytes)
    requires Encodable(f) && Faithful(f) && Run(IDLE, wires) == Output(IDLE, rest)
    ensures Run(s, Wire(f) + wires) == Output(IDLE, Leftover(s) + ([f] + rest))
  {
    WireOfFaithful(s, f);
    RunThen(s, Wire(f), Output(IDLE, Leftover(s) + [f]), wires, Output(IDLE, rest));
    assert Leftover(s) + [f] + rest == Leftover(s) + ([f] + rest);
  }

  lemma {:induction false} RunFaithful(fs: seq<KissFrame>)
    requires forall f :: f in fs ==> Encodable(f) && Faithful(f)
    ensures Run(IDLE, WireAll(fs)) == Output(IDLE, fs)
    decreases |fs|
  {
    if fs != [] {
      RunFaithful(fs[1..]);
      FirstOfMany(IDLE, fs[0], fs[1..], WireAll(fs[1..]));
      assert fs == [] + ([fs[0]] + fs[1..]);
    }
  }

  /**
    Resynchronisation: from any decoder state, the encodings of fs give back fs, after at most
    one leftover frame that depends on the prior state alone.
   */
  lemma ResyncAndRoundTrip(s: State, fs: seq<KissFrame>)
    requires fs != []
    requires forall f :: f in fs ==> Encodable(f) && Faithful(f)
    ensures Run(s, WireAll(fs)) == Output(IDLE, Leftover(s) + fs)
    ensures |Leftover(s)| <= 1
  {
    RunFaithful(fs[1..]);
    FirstOfMany(s, fs[0], fs[1..], WireAll(fs[1..]));
    assert fs == [fs[0]] + fs[1..];
  }

  /** The exclusions are exact: any other encodable frame fails to come back as itself. */
  lemma RoundTripExactly(f: KissFrame)
    requires Encodable(f)
    ensures Run(FRESH, Wire(f)).frames == [f] <==> Faithful(f)
  {
    if Faithful(f) {
      WireOfFaithful(FRESH, f);
    } else {
      RunWire(FRESH, f);
      if TypeByte(f) == 0xFF {
        RunEscaped([0xFF], f.data);
        assert ([0xFF] + f.data)[0] == 0xFF && [] + [TypeByte(f)] == [0xFF];
        assert Run(FRESH, Wire(f)).frames == [KissFrame(0, COMMAND_RETURN, [])];
      } else if TypeByte(f) == FEND {
        RunEscaped([], f.data);
        assert [] + f.data == f.data;
        assert Run(FRESH, Wire(f)).frames == Emit(f.data);
      } else {
        EscapedTypeByteLosesData(f);
      }
    }
  }

  lemma EscapedTypeByteLosesData(f: KissFrame)
    requires Encodable(f) && TypeByte(f) == FESC
    ensures Run(FRESH, Wire(f)).frames != [f]
  {
    RunWire(FRESH, f);
    var begun := State([], true, true);
    if f.data == [] {
      assert Run(begun, Escape([])) == Output(begun, []);
    } else {
      var first, rest := EscapeByte(f.data[0]), Escape(f.data[1..]);
      RunTwo(begun, first);
      RunConcat(begun, first, rest);
      var mid := Run(begun, first).state;
      assert |mid.buf| <= 1 && !mid.escaped && mid.inFrame;
      RunEscaped(mid.buf, f.data[1..]);
      var body := mid.buf + f.data[1..];
      assert Run(FRESH, Wire(f)).frames == Emit(body);
      assert |body| <= |f.data|;
    }
  }
}
