/** The frames between proxy and init, size, type byte and payload, and init's
    decoder, which throws away a buffered reader after every payload. */
module Wire {
  import opened Basics

  datatype Msg = Msg(typ: byte, data: seq<byte>)

  const SIGNAL: byte := 1
  const VMDATA: byte := 2
  const HEADER := 5
  const WORD := 0x1_0000_0000

  // ----- encoding

  /** The number whose base 256 digits these are; on four bytes it is
      binary.BigEndian.Uint32. */
  function SizeValue(b: seq<byte>): nat {
    if b == [] then 0 else 0x100 * SizeValue(b[..|b| - 1]) + b[|b| - 1] as int
  }

  lemma SizeValueStep(b: seq<byte>, d: byte)
    ensures SizeValue(b + [d]) == 0x100 * SizeValue(b) + d
  {
    assert (b + [d])[..|b|] == b;
  }

  /** Room for k bytes. */
  function Room(k: nat): nat {
    if k == 0 then 1 else 0x100 * Room(k - 1)
  }

  lemma {:induction false} SizeValueFits(b: seq<byte>)
    ensures SizeValue(b) < Room(|b|)
  {
    if b != [] {
      SizeValueFits(b[..|b| - 1]);
    }
  }

  lemma {:induction false} SizeValueInjective(a: seq<byte>, b: seq<byte>)
    requires |a| == |b| && SizeValue(a) == SizeValue(b)
    ensures a == b
  {
    if a != [] {
      SizeValueInjective(a[..|a| - 1], b[..|b| - 1]);
      assert a == a[..|a| - 1] + [a[|a| - 1]] && b == b[..|b| - 1] + [b[|b| - 1]];
    }
  }

  lemma {:induction false} BytesExist(n: nat, k: nat)
    requires n < Room(k)
    ensures exists b: seq<byte> :: |b| == k && SizeValue(b) == n
  {
    if k == 0 {
      var none: seq<byte> := [];
      assert SizeValue(none) == 0;
    } else {
      BytesExist(n / 0x100, k - 1);
      var high: seq<byte> :| |high| == k - 1 && SizeValue(high) == n / 0x100;
      SizeValueStep(high, n % 0x100);
    }
  }

  /** uint32(n) */
  function Wrap(n: nat): (w: nat)
    ensures w < WORD
    ensures n < WORD <==> w == n
  {
    n % WORD
  }

  /** The four bytes of uint32(n), most significant first. */
  ghost function Size(n: nat): (b: seq<byte>)
    ensures |b| == 4 && SizeValue(b) == Wrap(n)
  {
    BytesExist(Wrap(n), 4);
    var b: seq<byte> :| |b| == 4 && SizeValue(b) == Wrap(n);
    b
  }

  lemma SizeOfValue(b: seq<byte>)
    requires |b| == 4
    ensures SizeValue(b) < WORD && Size(SizeValue(b)) == b
  {
    SizeValueFits(b);
    SizeValueInjective(Size(SizeValue(b)), b);
  }

  /** binary.BigEndian.PutUint32(buf, uint32(n)) */
  method PutUint32(n: nat) returns (buf: seq<byte>)
    ensures buf == Size(n)
  {
    var v := n % WORD;
    var v1 := v / 0x100;
    var v2 := v1 / 0x100;
    var v3: byte := v2 / 0x100;
    buf := [v3, v2 % 0x100, v1 % 0x100, v % 0x100];
    assert SizeValue([]) == 0 && [] + [v3] == [v3];
    SizeValueStep([], v3);
    SizeValueStep([v3], v2 % 0x100);
    SizeValueStep([v3] + [v2 % 0x100], v1 % 0x100);
    SizeValueStep([v3] + [v2 % 0x100] + [v1 % 0x100], v % 0x100);
    assert buf == [v3] + [v2 % 0x100] + [v1 % 0x100] + [v % 0x100];
    SizeValueInjective(buf, Size(n));
  }

  ghost function Encode(m: Msg): (b: seq<byte>)
    ensures |b| == HEADER + |m.data|
  {
    Size(|m.data|) + [m.typ] + m.data
  }

  ghost function EncodeAll(ms: seq<Msg>): seq<byte> {
    if ms == [] then [] else Encode(ms[0]) + EncodeAll(ms[1..])
  }

  /** The writer loop builds a frame by appending. */
  method WriteFrame(m: Msg) returns (buf: seq<byte>)
    ensures buf == Encode(m)
  {
    buf := PutUint32(|m.data|);
    buf := buf + [m.typ];
    buf := buf + m.data;
  }

  /** The header tells the length of the payload exactly when it fits in 32 bits. */
  lemma HeaderTellsLength(m: Msg)
    ensures SizeValue(Encode(m)[..4]) == |m.data| <==> |m.data| < WORD
  {
    assert Encode(m)[..4] == Size(|m.data|);
  }

  // ----- decoding

  /** Between reads: part of a header, or part of a payload. */
  datatype Decoder = Header(got: seq<byte>) | Payload(typ: byte, size: nat, got: seq<byte>)

  /** The decoder, what it delivered, how many fetched bytes went away with
      a buffer, and the bytes in the socket. */
  datatype Rx = Rx(dec: Decoder, msgs: seq<Msg>, lost: nat, stream: seq<byte>)

  predicate ValidDecoder(d: Decoder) {
    match d
    case Header(got) => |got| < HEADER
    case Payload(_, size, got) => |got| < size < WORD
  }

  /** bufio.NewReaderSize rounds the buffer up to 16 bytes; bufio.Reader.Read
      reads into the caller's slice only if that is at least as long. Either
      way one read of the socket may fetch this much. */
  function ReadLimit(size: nat, missing: nat): (limit: nat)
    requires 1 <= missing <= size
    ensures limit == if size < 16 then 16 else size
  {
    var buffer := if size < 16 then 16 else size;
    if missing >= buffer then missing else buffer
  }

  function Limit(d: Decoder): (limit: nat)
    requires ValidDecoder(d)
    ensures limit > 0
  {
    match d
    case Header(got) => HEADER - |got|
    case Payload(_, size, got) => ReadLimit(size, size - |got|)
  }

  /** One read of the socket may return k bytes. */
  predicate CanRead(rx: Rx, k: nat) {
    ValidDecoder(rx.dec) && 1 <= k <= |rx.stream| && k <= Limit(rx.dec)
  }

  function Deliver(rx: Rx, m: Msg): Rx {
    rx.(dec := Header([]), msgs := rx.msgs + [m])
  }

  function Read(rx: Rx, k: nat): (r: Rx)
    requires CanRead(rx, k)
    ensures ValidDecoder(r.dec)
  {
    var chunk := rx.stream[..k];
    var rest := rx.(stream := rx.stream[k..]);
    match rx.dec
    case Header(got) =>
      var h := got + chunk;
      if |h| < HEADER then rest.(dec := Header(h))
      else if SizeValue(h[..4]) == 0 then Deliver(rest, Msg(h[4], []))
      else
        SizeOfValue(h[..4]);
        rest.(dec := Payload(h[4], SizeValue(h[..4]), []))
    case Payload(typ, size, got) =>
      var missing := size - |got|;
      if k < missing then rest.(dec := Payload(typ, size, got + chunk))
      else Deliver(rest, Msg(typ, got + chunk[..missing])).(lost := rx.lost + k - missing)
  }

  predicate CanReadAll(rx: Rx, ks: seq<nat>)
    decreases |ks|
  {
    ks == [] || (CanRead(rx, ks[0]) && CanReadAll(Read(rx, ks[0]), ks[1..]))
  }

  function ReadAll(rx: Rx, ks: seq<nat>): Rx
    requires CanReadAll(rx, ks)
    decreases |ks|
  {
    if ks == [] then rx else ReadAll(Read(rx, ks[0]), ks[1..])
  }

  /** The receiving loop of init over a socket that answers with these chunk
      sizes: header by io.ReadFull, payload through a fresh buffer. */
  method Receive(stream: seq<byte>, ks: seq<nat>) returns (rx: Rx)
    requires CanReadAll(Rx(Header([]), [], 0, stream), ks)
    ensures rx == ReadAll(Rx(Header([]), [], 0, stream), ks)
  {
    var msgs: seq<Msg>, lost: nat, socket := [], 0, stream;
    var inPayload, typ: byte, size: nat, buf: seq<byte> := false, 0, 0, [];
    for i := 0 to |ks|
      invariant CanReadAll(Rx(if inPayload then Payload(typ, size, buf) else Header(buf), msgs, lost, socket), ks[i..])
      invariant ReadAll(Rx(if inPayload then Payload(typ, size, buf) else Header(buf), msgs, lost, socket), ks[i..])
        == ReadAll(Rx(Header([]), [], 0, stream), ks)
    {
      assert ks[i..][1..] == ks[i + 1..];
      var k := ks[i];
      var chunk := socket[..k];
      socket := socket[k..];
      if !inPayload {
        buf := buf + chunk;
        if |buf| == HEADER {
          size, typ, buf := SizeValue(buf[..4]), buf[4], [];
          if size == 0 {
            msgs := msgs + [Msg(typ, [])];
          } else {
            inPayload := true;
          }
        }
      } else {
        var missing := size - |buf|;
        if k < missing {
          buf := buf + chunk;
        } else {
          msgs := msgs + [Msg(typ, buf + chunk[..missing])];
          lost := lost + (k - missing);
          buf, inPayload := [], false;
        }
      }
    }
    assert ks[|ks|..] == [];
    rx := Rx(if inPayload then Payload(typ, size, buf) else Header(buf), msgs, lost, socket);
  }

  // ----- what the decoder has seen

  ghost function Partial(d: Decoder): seq<byte> {
    match d
    case Header(got) => got
    case Payload(typ, size, got) => Size(size) + [typ] + got
  }

  /** The bytes delivered, half read, and still to be read. */
  ghost function Seen(rx: Rx): seq<byte> {
    EncodeAll(rx.msgs) + Partial(rx.dec) + rx.stream
  }

  lemma {:induction false} EncodeAllAppend(ms: seq<Msg>, m: Msg)
    ensures EncodeAll(ms + [m]) == EncodeAll(ms) + Encode(m)
  {
    if ms == [] {
      assert ms + [m] == [m] && [m][1..] == [];
    } else {
      assert (ms + [m])[1..] == ms[1..] + [m];
      EncodeAllAppend(ms[1..], m);
    }
  }

  ghost predicate SmallMsgs(ms: seq<Msg>) {
    forall i :: 0 <= i < |ms| ==> |ms[i].data| < WORD
  }

  lemma HeaderBytes(h: seq<byte>)
    requires |h| == HEADER
    ensures Size(SizeValue(h[..4])) + [h[4]] == h
  {
    SizeOfValue(h[..4]);
  }

  /** A read moves bytes and drops none but those it counts as lost. */
  lemma ReadKeepsBytes(rx: Rx, k: nat)
    requires CanRead(rx, k) && SmallMsgs(rx.msgs)
    ensures SmallMsgs(Read(rx, k).msgs)
    ensures |Seen(Read(rx, k))| + Read(rx, k).lost == |Seen(rx)| + rx.lost
    ensures Read(rx, k).lost == rx.lost ==> Seen(Read(rx, k)) == Seen(rx)
  {
    var chunk, rest := rx.stream[..k], rx.stream[k..];
    assert rx.stream == chunk + rest;
    match rx.dec
    case Header(got) => HeaderKeepsBytes(rx.msgs, got, chunk, rest);
    case Payload(typ, size, got) => PayloadKeepsBytes(rx.msgs, typ, size, got, chunk, rest);
  }

  lemma HeaderKeepsBytes(ms: seq<Msg>, got: seq<byte>, chunk: seq<byte>, rest: seq<byte>)
    ensures EncodeAll(ms) + (got + chunk) + rest == EncodeAll(ms) + got + (chunk + rest)
    ensures var h := got + chunk;
      |h| == HEADER ==>
        && Size(SizeValue(h[..4])) + [h[4]] + [] == h
        && (SizeValue(h[..4]) == 0 ==> EncodeAll(ms + [Msg(h[4], [])]) == EncodeAll(ms) + h)
  {
    var h := got + chunk;
    if |h| == HEADER {
      HeaderBytes(h);
      if SizeValue(h[..4]) == 0 {
        EncodeAllAppend(ms, Msg(h[4], []));
      }
    }
  }

  lemma PayloadKeepsBytes(ms: seq<Msg>, typ: byte, size: nat, got: seq<byte>, chunk: seq<byte>, rest: seq<byte>)
    requires |got| < size
    ensures var missing := size - |got|;
      if |chunk| < missing then
        EncodeAll(ms) + (Size(size) + [typ] + (got + chunk)) + rest
        == EncodeAll(ms) + (Size(size) + [typ] + got) + (chunk + rest)
      else
        EncodeAll(ms + [Msg(typ, got + chunk[..missing])]) + (chunk[missing..] + rest)
        == EncodeAll(ms) + (Size(size) + [typ] + got) + (chunk + rest)
  {
    var missing := size - |got|;
    if |chunk| >= missing {
      EncodeAllAppend(ms, Msg(typ, got + chunk[..missing]));
      assert chunk == chunk[..missing] + chunk[missing..];
    }
  }

  lemma {:induction false} ReadAllKeepsBytes(rx: Rx, ks: seq<nat>)
    requires CanReadAll(rx, ks) && SmallMsgs(rx.msgs)
    ensures ReadAll(rx, ks).lost >= rx.lost
    ensures |Seen(ReadAll(rx, ks))| + ReadAll(rx, ks).lost == |Seen(rx)| + rx.lost
    ensures ReadAll(rx, ks).lost == rx.lost ==> Seen(ReadAll(rx, ks)) == Seen(rx)
    ensures SmallMsgs(ReadAll(rx, ks).msgs)
    decreases |ks|
  {
    if ks != [] {
      ReadKeepsBytes(rx, ks[0]);
      ReadAllKeepsBytes(Read(rx, ks[0]), ks[1..]);
    }
  }

  // ----- frames are uniquely decodable

  lemma FirstFrame(m: Msg, a: seq<byte>, n: Msg, b: seq<byte>)
    requires |m.data| < WORD && |n.data| < WORD && Encode(m) + a == Encode(n) + b
    ensures m == n && a == b
  {
    var left, right := Encode(m) + a, Encode(n) + b;
    FrameParts(m, a);
    FrameParts(n, b);
    SizeInjective(|m.data|, |n.data|);
  }

  lemma SizeInjective(a: nat, b: nat)
    requires a < WORD && b < WORD && Size(a) == Size(b)
    ensures a == b
  {
    assert Wrap(a) == Wrap(b);
  }

  lemma FrameParts(m: Msg, a: seq<byte>)
    ensures var left := Encode(m) + a;
      && left[..4] == Size(|m.data|) && left[4] == m.typ
      && left[HEADER..HEADER + |m.data|] == m.data
      && left[HEADER + |m.data|..] == a
  {
  }

  lemma {:induction false} UniquelyDecodable(xs: seq<Msg>, tail: seq<byte>, ms: seq<Msg>)
    requires SmallMsgs(xs) && SmallMsgs(ms) && EncodeAll(xs) + tail == EncodeAll(ms)
    ensures xs <= ms && tail == EncodeAll(ms[|xs|..])
  {
    if xs == [] {
      assert EncodeAll(xs) + tail == tail && ms[0..] == ms;
    } else {
      assert |EncodeAll(xs)| >= HEADER;
      assert ms != [];
      var a, b := EncodeAll(xs[1..]) + tail, EncodeAll(ms[1..]);
      assert Encode(xs[0]) + a == EncodeAll(xs) + tail;
      FirstFrame(xs[0], a, ms[0], b);
      UniquelyDecodable(xs[1..], tail, ms[1..]);
      assert xs == [xs[0]] + xs[1..] && ms == [ms[0]] + ms[1..];
      assert ms[|xs|..] == ms[1..][|xs[1..]|..];
    }
  }

  lemma {:induction false} SeenIsPrefix(rx: Rx, ms: seq<Msg>)
    requires SmallMsgs(rx.msgs) && SmallMsgs(ms) && Seen(rx) == EncodeAll(ms)
    ensures rx.msgs <= ms
    ensures Partial(rx.dec) + rx.stream == EncodeAll(ms[|rx.msgs|..])
    ensures rx.stream == [] && rx.dec == Header([]) ==> rx.msgs == ms
  {
    var tail := Partial(rx.dec) + rx.stream;
    assert EncodeAll(rx.msgs) + tail == Seen(rx);
    UniquelyDecodable(rx.msgs, tail, ms);
    NoFrameIsEmpty(ms[|rx.msgs|..]);
  }

  lemma {:induction false} NoFrameIsEmpty(ms: seq<Msg>)
    ensures EncodeAll(ms) == [] ==> ms == []
  {
    if ms != [] {
      assert |EncodeAll(ms)| >= |Encode(ms[0])|;
    }
  }

  /** A decoder that waits for more has not seen a whole frame. */
  lemma PartialIsNoFrame(d: Decoder, stream: seq<byte>, ms: seq<Msg>)
    requires ValidDecoder(d) && SmallMsgs(ms) && Partial(d) + stream == EncodeAll(ms)
    ensures ms == [] ==> d == Header([])
    ensures ms != [] && d.Payload? ==> |Encode(ms[0])| == |Partial(d)| + d.size - |d.got|
    ensures stream == [] ==> d == Header([])
  {
    if ms != [] && d.Payload? {
      FrameParts(ms[0], EncodeAll(ms[1..]));
      assert (Partial(d) + stream)[..4] == Size(d.size);
      SizeInjective(d.size, |ms[0].data|);
    }
  }

  // ----- which reads lose bytes

  function Sum(ks: seq<nat>): nat {
    if ks == [] then 0 else Sum(ks[..|ks| - 1]) + ks[|ks| - 1]
  }

  /** Where frame j begins on the wire. */
  ghost function FrameStart(ms: seq<Msg>, j: nat): nat
    requires j <= |ms|
  {
    |EncodeAll(ms[..j])|
  }

  /** A frame ends strictly between these two positions. */
  ghost predicate Straddles(ms: seq<Msg>, from: nat, to: nat) {
    exists j :: 0 <= j <= |ms| && from < FrameStart(ms, j) < to
  }

  /** Read i does not run past the end of a frame, if the first one starts at this position. */
  ghost predicate ReadAligned(ms: seq<Msg>, at: nat, ks: seq<nat>, i: int) {
    0 <= i < |ks| ==> !Straddles(ms, at + Sum(ks[..i]), at + Sum(ks[..i]) + ks[i])
  }

  ghost predicate AlignedAt(ms: seq<Msg>, at: nat, ks: seq<nat>) {
    forall i {:trigger ReadAligned(ms, at, ks, i)} :: ReadAligned(ms, at, ks, i)
  }

  /** The condition on messages and read sizes. */
  ghost predicate Aligned(ms: seq<Msg>, ks: seq<nat>) {
    AlignedAt(ms, 0, ks)
  }

  lemma {:induction false} SumTail(ks: seq<nat>, i: nat)
    requires i < |ks|
    ensures Sum(ks[..i + 1]) == ks[0] + Sum(ks[1..][..i])
  {
    assert ks[..i + 1][..i] == ks[..i];
    if i > 0 {
      SumTail(ks, i - 1);
      assert ks[1..][..i][..i - 1] == ks[1..][..i - 1];
    }
  }

  lemma AlignedLater(ms: seq<Msg>, at: nat, ks: seq<nat>, i: int)
    requires ks != [] && i != 0
    ensures ReadAligned(ms, at, ks, i) <==> ReadAligned(ms, at + ks[0], ks[1..], i - 1)
  {
    if 0 < i < |ks| {
      SumTail(ks, i - 1);
    }
  }

  lemma AlignedTail(ms: seq<Msg>, at: nat, ks: seq<nat>)
    requires ks != []
    ensures AlignedAt(ms, at, ks) <==> !Straddles(ms, at, at + ks[0]) && AlignedAt(ms, at + ks[0], ks[1..])
  {
    var rest, next := ks[1..], at + ks[0];
    assert ReadAligned(ms, at, ks, 0) <==> !Straddles(ms, at, at + ks[0]);
    if AlignedAt(ms, at, ks) {
      forall i: int
        ensures ReadAligned(ms, next, rest, i)
      {
        if i >= 0 {
          AlignedLater(ms, at, ks, i + 1);
          assert ReadAligned(ms, at, ks, i + 1);
        }
      }
    } else {
      var i :| !ReadAligned(ms, at, ks, i);
      if i != 0 {
        AlignedLater(ms, at, ks, i);
        assert !ReadAligned(ms, next, rest, i - 1);
      }
    }
  }

  lemma {:induction false} FrameStartStep(ms: seq<Msg>, j: nat)
    requires j < |ms|
    ensures FrameStart(ms, j + 1) == FrameStart(ms, j) + |Encode(ms[j])|
  {
    assert ms[..j + 1] == ms[..j] + [ms[j]];
    EncodeAllAppend(ms[..j], ms[j]);
  }

  lemma {:induction false} FrameStartsGrow(ms: seq<Msg>, i: nat, j: nat)
    requires i <= j <= |ms|
    ensures FrameStart(ms, i) <= FrameStart(ms, j)
    decreases j
  {
    if i < j {
      FrameStartStep(ms, j - 1);
      FrameStartsGrow(ms, i, j - 1);
    }
  }

  /** Between two neighbouring frame starts there is none. */
  lemma StraddlesWithin(ms: seq<Msg>, n: nat, from: nat, to: nat)
    requires n <= |ms| && FrameStart(ms, n) <= from
    ensures n == |ms| ==> !Straddles(ms, from, to)
    ensures n < |ms| && from < FrameStart(ms, n + 1) ==> (Straddles(ms, from, to) <==> FrameStart(ms, n + 1) < to)
  {
    forall j | 0 <= j <= |ms|
      ensures j <= n ==> FrameStart(ms, j) <= from
      ensures n < j ==> FrameStart(ms, n + 1) <= FrameStart(ms, j)
    {
      if j <= n {
        FrameStartsGrow(ms, j, n);
      } else {
        FrameStartsGrow(ms, n + 1, j);
      }
    }
  }

  /** The position of the decoder on the wire. */
  ghost function Position(rx: Rx): nat {
    |EncodeAll(rx.msgs)| + |Partial(rx.dec)|
  }

  /** Whether a read runs past the end of the frame it is in. */
  ghost predicate Overruns(d: Decoder, k: nat) {
    d.Payload? && k > d.size - |d.got|
  }

  lemma OverrunIsStraddle(d: Decoder, stream: seq<byte>, ms: seq<Msg>, n: nat, k: nat)
    requires ValidDecoder(d) && 1 <= k <= |stream| && k <= Limit(d)
    requires n <= |ms| && SmallMsgs(ms) && Partial(d) + stream == EncodeAll(ms[n..])
    ensures var at := FrameStart(ms, n) + |Partial(d)|;
      Overruns(d, k) <==> Straddles(ms, at, at + k)
  {
    var at := FrameStart(ms, n) + |Partial(d)|;
    PartialIsNoFrame(d, stream, ms[n..]);
    StraddlesWithin(ms, n, at, at + k);
    if n < |ms| {
      assert ms[n..][0] == ms[n];
      FrameStartStep(ms, n);
    }
  }

  lemma ReadMoves(rx: Rx, k: nat)
    requires CanRead(rx, k)
    ensures Read(rx, k).lost >= rx.lost
    ensures Read(rx, k).lost == rx.lost <==> !Overruns(rx.dec, k)
    ensures |Read(rx, k).stream| == |rx.stream| - k
  {
  }

  /** One read of a decoder that has lost nothing so far. */
  lemma {:induction false} ReadLosesIff(rx: Rx, ms: seq<Msg>, k: nat)
    requires CanRead(rx, k) && SmallMsgs(rx.msgs) && SmallMsgs(ms) && Seen(rx) == EncodeAll(ms)
    ensures Read(rx, k).lost >= rx.lost && SmallMsgs(Read(rx, k).msgs)
    ensures Read(rx, k).lost == rx.lost <==> !Straddles(ms, Position(rx), Position(rx) + k)
    ensures Read(rx, k).lost == rx.lost ==>
      Seen(Read(rx, k)) == EncodeAll(ms) && Position(Read(rx, k)) == Position(rx) + k
  {
    var n, next := |rx.msgs|, Read(rx, k);
    SeenIsPrefix(rx, ms);
    assert ms[..n] == rx.msgs;
    ReadKeepsBytes(rx, k);
    ReadMoves(rx, k);
    OverrunIsStraddle(rx.dec, rx.stream, ms, n, k);
    SeenLength(rx);
    SeenLength(next);
  }

  lemma SeenLength(rx: Rx)
    ensures |Seen(rx)| == Position(rx) + |rx.stream|
  {
  }

  lemma {:induction false} LossIffStraddles(rx: Rx, ms: seq<Msg>, ks: seq<nat>)
    requires CanReadAll(rx, ks) && SmallMsgs(rx.msgs) && SmallMsgs(ms) && Seen(rx) == EncodeAll(ms)
    ensures ReadAll(rx, ks).lost == rx.lost <==> AlignedAt(ms, Position(rx), ks)
    decreases |ks|
  {
    if ks != [] {
      var next := Read(rx, ks[0]);
      ReadLosesIff(rx, ms, ks[0]);
      AlignedTail(ms, Position(rx), ks);
      if next.lost == rx.lost {
        LossIffStraddles(next, ms, ks[1..]);
      } else {
        ReadAllKeepsBytes(next, ks[1..]);
      }
    }
  }

  lemma {:induction false} DecoderStaysValid(rx: Rx, ks: seq<nat>)
    requires CanReadAll(rx, ks) && ValidDecoder(rx.dec)
    ensures ValidDecoder(ReadAll(rx, ks).dec)
    decreases |ks|
  {
    if ks != [] {
      DecoderStaysValid(Read(rx, ks[0]), ks[1..]);
    }
  }

  /** Bytes are lost exactly if some read runs past the end of a frame. As long
      as none does, init has received the first of the messages sent, unchanged
      and in order; and once all bytes are read, it has received the messages
      sent if and only if none did. */
  lemma {:induction false} ExactIffAligned(ms: seq<Msg>, ks: seq<nat>)
    requires SmallMsgs(ms) && CanReadAll(Rx(Header([]), [], 0, EncodeAll(ms)), ks)
    ensures var rx := ReadAll(Rx(Header([]), [], 0, EncodeAll(ms)), ks);
      && (rx.lost == 0 <==> Aligned(ms, ks))
      && (Aligned(ms, ks) ==> rx.msgs <= ms)
      && (rx.stream == [] ==> (rx.msgs == ms <==> Aligned(ms, ks)))
  {
    var start := Rx(Header([]), [], 0, EncodeAll(ms));
    var rx := ReadAll(start, ks);
    assert Seen(start) == EncodeAll(ms) && Position(start) == 0;
    LossIffStraddles(start, ms, ks);
    ReadAllKeepsBytes(start, ks);
    DecoderStaysValid(start, ks);
    if rx.lost == 0 {
      SeenIsPrefix(rx, ms);
      PartialIsNoFrame(rx.dec, rx.stream, ms[|rx.msgs|..]);
    }
    assert |Seen(rx)| == |EncodeAll(rx.msgs)| + |Partial(rx.dec)| + |rx.stream|;
  }

  /** How much one read can lose: whatever the buffer holds beyond the bytes
      still missing; at most 15 bytes after a signal. */
  lemma LossPerRead(rx: Rx, k: nat)
    requires CanRead(rx, k)
    ensures rx.dec.Header? ==> Read(rx, k).lost == rx.lost
    ensures rx.dec.Payload? ==>
      Read(rx, k).lost - rx.lost <= (if rx.dec.size < 16 then 16 else rx.dec.size) - (rx.dec.size - |rx.dec.got|)
    ensures rx.dec.Payload? && rx.dec.size == 1 ==> Read(rx, k).lost - rx.lost <= 15
  {
  }

  /** The header of a signal, then a read of k bytes: one signal is delivered
      and the other k - 1 bytes are gone. */
  lemma {:induction false} SignalThenOverrun(a: byte, rest: seq<byte>, k: nat)
    requires 1 <= k <= 16 && k <= 1 + |rest|
    ensures var rx := Rx(Header([]), [], 0, Encode(Msg(SIGNAL, [a])) + rest);
      CanReadAll(rx, [5, k]) && ReadAll(rx, [5, k]) == Rx(Header([]), [Msg(SIGNAL, [a])], k - 1, rest[k - 1..])
  {
    SignalBytes(a);
    var rx := Rx(Header([]), [], 0, [0, 0, 0, 1, 1, a] + rest);
    var rx1 := Rx(Payload(1, 1, []), [], 0, [a] + rest);
    SignalHeader(a, rest);
    SignalPayload(a, rest, k);
    assert [5, k][1..] == [k] && [k][1..] == [];
    OneRead(rx1, k);
  }

  /** Two signals in the socket at once: the buffer for the first payload may
      swallow the second frame, which is then never delivered. */
  lemma TwoSignalsOneDelivered(a: byte, b: byte)
    ensures var rx := Rx(Header([]), [], 0, EncodeAll([Msg(SIGNAL, [a]), Msg(SIGNAL, [b])]));
      CanReadAll(rx, [5, 7]) && ReadAll(rx, [5, 7]) == Rx(Header([]), [Msg(SIGNAL, [a])], 6, [])
  {
    var m, n := Msg(SIGNAL, [a]), Msg(SIGNAL, [b]);
    assert [m, n][1..] == [n] && [n][1..] == [] && EncodeAll([n]) == Encode(n) + [];
    assert |EncodeAll([n])| == 6 && EncodeAll([n])[6..] == [];
    SignalThenOverrun(a, EncodeAll([n]), 7);
  }

  /** With four signals in the socket a read reaches the bound of 15 bytes. */
  lemma FourSignalsLoseFifteenBytes(a: byte, later: seq<Msg>)
    requires |later| == 3 && forall i :: 0 <= i < 3 ==> later[i].typ == SIGNAL && |later[i].data| == 1
    ensures var rx := Rx(Header([]), [], 0, EncodeAll([Msg(SIGNAL, [a])] + later));
      CanReadAll(rx, [5, 16]) && ReadAll(rx, [5, 16]).lost == 15 && ReadAll(rx, [5, 16]).msgs == [Msg(SIGNAL, [a])]
  {
    var ms := [Msg(SIGNAL, [a])] + later;
    assert ms[1..] == later;
    assert later[..3] == later && EncodeAll(later[..0]) == [];
    FrameStartStep(later, 0);
    FrameStartStep(later, 1);
    FrameStartStep(later, 2);
    SignalThenOverrun(a, EncodeAll(later), 16);
  }

  lemma OneRead(rx: Rx, k: nat)
    requires CanRead(rx, k)
    ensures CanReadAll(rx, [k]) && ReadAll(rx, [k]) == Read(rx, k)
  {
    assert [k][1..] == [] && CanReadAll(Read(rx, k), []);
    assert ReadAll(Read(rx, k), []) == Read(rx, k);
  }

  lemma SizeOfOne()
    ensures SizeValue([0, 0, 0, 1]) == 1
  {
    var z: byte, b: byte := 0, 1;
    assert SizeValue([]) == 0 && [] + [z] == [z];
    SizeValueStep([], z);
    SizeValueStep([z], z);
    SizeValueStep([z] + [z], z);
    SizeValueStep([z] + [z] + [z], b);
    assert [z] + [z] + [z] + [b] == [0, 0, 0, 1];
  }

  lemma SignalBytes(a: byte)
    ensures Encode(Msg(SIGNAL, [a])) == [0, 0, 0, 1, 1, a]
  {
    var one: seq<byte> := [0, 0, 0, 1];
    SizeOfOne();
    SizeOfValue(one);
  }

  lemma SignalHeader(a: byte, rest: seq<byte>)
    ensures var rx := Rx(Header([]), [], 0, [0, 0, 0, 1, 1, a] + rest);
      CanRead(rx, 5) && Read(rx, 5) == Rx(Payload(1, 1, []), [], 0, [a] + rest)
  {
    var bytes := [0, 0, 0, 1, 1, a] + rest;
    var h: seq<byte> := [0, 0, 0, 1, 1];
    SizeOfOne();
    assert [] + bytes[..5] == h && h[..4] == [0, 0, 0, 1] && bytes[5..] == [a] + rest;
  }

  lemma SignalPayload(a: byte, rest: seq<byte>, k: nat)
    requires 1 <= k <= 16 && k <= 1 + |rest|
    ensures var rx := Rx(Payload(1, 1, []), [], 0, [a] + rest);
      CanRead(rx, k) && Read(rx, k) == Rx(Header([]), [Msg(SIGNAL, [a])], k - 1, rest[k - 1..])
  {
    var bytes := [a] + rest;
    assert [] + bytes[..k][..1] == [a] && bytes[k..] == rest[k - 1..];
  }
}
