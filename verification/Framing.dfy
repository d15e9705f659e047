/** Length-prefixed frames: a header of ten columns with the payload's size in hexadecimal, then the payload
    (common/source/chat_message.cpp), and the two-phase reader (server/source/chat_user.cpp). Bytes are
    modelled as characters. */
module Framing {
  import opened Wrappers

  const HEADER_LENGTH: nat := 10

  /** 16 to the power of 10: the first size whose hexadecimal form needs eleven columns. */
  const SIZE_LIMIT: nat := 0x100_0000_0000

  // ---------------------------------------------------------------- hexadecimal

  function HexDigit(d: nat): char
    requires d < 16
  {
    if d < 10 then '0' + d as char else 'a' + (d - 10) as char
  }

  function DigitValue(c: char): Option<nat> {
    if '0' <= c <= '9' then Some((c - '0') as nat)
    else if 'a' <= c <= 'f' then Some((c - 'a') as nat + 10)
    else if 'A' <= c <= 'F' then Some((c - 'A') as nat + 10)
    else None
  }

  function Hex(n: nat): (s: string)
    ensures s != ""
  {
    if n < 16 then [HexDigit(n)] else Hex(n / 16) + [HexDigit(n % 16)]
  }

  /** The value of the longest prefix of hexadecimal digits, continuing from `value`. */
  function ReadDigits(s: string, value: nat): nat {
    if s == "" || DigitValue(s[0]).None? then value
    else ReadDigits(s[1..], value * 16 + DigitValue(s[0]).value)
  }

  predicate IsSpace(c: char) {
    c == ' ' || c == '\t' || c == '\n' || c == '\r' || c == (11 as char) || c == (12 as char)
  }

  function SkipSpaces(s: string): string {
    if s != "" && IsSpace(s[0]) then SkipSpaces(s[1..]) else s
  }

  /** Stream extraction of a hexadecimal number: leading white space is skipped, at least one digit is needed,
      and anything after the digits is ignored. */
  function ParseHeader(header: string): Option<nat> {
    var s := SkipSpaces(header);
    if s == "" || DigitValue(s[0]).None? then None else Some(ReadDigits(s, 0))
  }

  function Spaces(n: nat): string {
    if n == 0 then "" else " " + Spaces(n - 1)
  }

  /** The number right-aligned in ten columns; a longer number keeps all its digits. */
  function Header(n: nat): string {
    if |Hex(n)| < HEADER_LENGTH then Spaces(HEADER_LENGTH - |Hex(n)|) + Hex(n) else Hex(n)
  }

  function Pow16(k: nat): nat {
    if k == 0 then 1 else 16 * Pow16(k - 1)
  }

  lemma {:induction false} HexLength(n: nat, k: nat)
    requires k >= 1
    ensures |Hex(n)| <= k <==> n < Pow16(k)
  {
    if n < 16 {
      Pow16Positive(k - 1);
    } else if k == 1 {
      assert Pow16(1) == 16 * Pow16(0);
    } else {
      HexLength(n / 16, k - 1);
      assert Pow16(k) == 16 * Pow16(k - 1);
    }
  }

  lemma {:induction false} Pow16Positive(k: nat)
    ensures Pow16(k) >= 1
  {
    if k > 0 {
      Pow16Positive(k - 1);
    }
  }

  /** A header has ten columns exactly when the size is below 16 to the power of 10. */
  lemma HeaderFits(n: nat)
    ensures |Header(n)| == 10 <==> n < 0x100_0000_0000
  {
    HexLength(n, 10);
    assert Pow16(5) == 0x100000;
    assert Pow16(10) == SIZE_LIMIT;
    SpacesAre(HEADER_LENGTH);
    if |Hex(n)| < HEADER_LENGTH {
      SpacesAre(HEADER_LENGTH - |Hex(n)|);
    }
  }

  lemma {:induction false} SpacesAre(n: nat)
    ensures |Spaces(n)| == n
  {
    if n > 0 {
      SpacesAre(n - 1);
    }
  }

  lemma DigitRoundTrip(d: nat)
    requires d < 16
    ensures DigitValue(HexDigit(d)) == Some(d) && !IsSpace(HexDigit(d))
  {
  }

  /** Reading the digits of a number, with `rest` behind them. */
  lemma {:induction false} ReadHex(n: nat, rest: string)
    ensures ReadDigits(Hex(n) + rest, 0) == ReadDigits(rest, n)
    ensures DigitValue(Hex(n)[0]).Some? && !IsSpace(Hex(n)[0])
  {
    var d := n % 16;
    DigitRoundTrip(d);
    if n < 16 {
      assert (Hex(n) + rest)[1..] == rest;
    } else {
      ReadHex(n / 16, [HexDigit(d)] + rest);
      assert Hex(n) + rest == Hex(n / 16) + ([HexDigit(d)] + rest);
      assert ([HexDigit(d)] + rest)[1..] == rest;
    }
  }

  lemma DivideTwice(n: nat, p: nat)
    requires p >= 1
    ensures n / 16 / p == n / (16 * p)
  {
    var q, t := n / 16, n / 16 / p;
    var low := 16 * (q % p) + n % 16;
    assert q == p * t + q % p;
    assert n == 16 * q + n % 16 == 16 * p * t + low;
    assert low < 16 * p;
    QuotientIs(n, 16 * p, t, low);
  }

  lemma MultiplesAreApart(k: int, d: nat)
    ensures k == 0 || k * d >= d || k * d + d <= 0
  {
    if k >= 1 {
      assert k * d == (k - 1) * d + d;
    } else if k <= -1 {
      assert k * d == (k + 1) * d - d;
    }
  }

  lemma QuotientIs(n: nat, d: nat, t: nat, low: nat)
    requires low < d && n == d * t + low
    ensures n / d == t
  {
    assert n == d * (n / d) + n % d;
    assert (n / d - t) * d == low - n % d;
    MultiplesAreApart(n / d - t, d);
  }

  /** The hexadecimal digits of a number, counted from the right. */
  lemma {:induction false} HexDigitAt(n: nat, i: nat)
    requires i < |Hex(n)|
    ensures Pow16(i) >= 1 && Hex(n)[|Hex(n)| - 1 - i] == "0123456789abcdef"[n / Pow16(i) % 16]
  {
    Pow16Positive(i);
    if n >= 16 {
      if i > 0 {
        HexDigitAt(n / 16, i - 1);
        Pow16Positive(i - 1);
        DivideTwice(n, Pow16(i - 1));
      }
    }
  }

  lemma PaddedColumn(blanks: nat, digits: string, i: nat)
    requires blanks + |digits| == 10 && i < 10
    ensures |Spaces(blanks) + digits| == 10
    ensures (Spaces(blanks) + digits)[9 - i] == if i < |digits| then digits[|digits| - 1 - i] else ' '
  {
    SpacesAreBlank(blanks);
    hide Spaces;
  }

  /** The ten columns of a header: the size in lower-case hexadecimal, right-aligned, filled with blanks. */
  lemma HeaderColumn(n: nat, i: nat)
    requires n < 0x100_0000_0000 && i < 10
    ensures |Header(n)| == 10 && Pow16(i) >= 1
    ensures Header(n)[9 - i] == if i == 0 || n >= Pow16(i) then "0123456789abcdef"[n / Pow16(i) % 16] else ' '
  {
    HeaderFits(n);
    Pow16Positive(i);
    hide Hex, Pow16, Spaces;
    var digits := Hex(n);
    if i > 0 {
      HexLength(n, i);
    }
    if i < |digits| {
      HexDigitAt(n, i);
    }
    HeaderParts(n);
    PaddedColumn(10 - |digits|, digits, i);
  }

  lemma HeaderParts(n: nat)
    requires n < 0x100_0000_0000
    ensures 1 <= |Hex(n)| <= 10 && Header(n) == Spaces(10 - |Hex(n)|) + Hex(n)
  {
    HexLength(n, 10);
    assert Pow16(5) == 0x100000;
    assert Pow16(10) == 0x100_0000_0000;
    assert Spaces(0) + Hex(n) == Hex(n);
  }

  lemma {:induction false} SpacesAreBlank(n: nat)
    ensures |Spaces(n)| == n && forall i | 0 <= i < n :: Spaces(n)[i] == ' '
  {
    if n > 0 {
      SpacesAreBlank(n - 1);
    }
  }

  lemma {:induction false} SkipPadding(n: nat, s: string)
    requires s != "" && !IsSpace(s[0])
    ensures SkipSpaces(Spaces(n) + s) == s
  {
    if n == 0 {
      assert Spaces(0) + s == s;
    } else {
      assert (Spaces(n) + s)[1..] == Spaces(n - 1) + s;
      SkipPadding(n - 1, s);
    }
  }

  /** The reader's header parser inverts the writer's header for every size. */
  lemma HeaderRoundTrip(n: nat)
    ensures ParseHeader(Header(n)) == Some(n)
  {
    ReadHex(n, "");
    assert Hex(n) + "" == Hex(n);
    if |Hex(n)| < HEADER_LENGTH {
      SkipPadding(HEADER_LENGTH - |Hex(n)|, Hex(n));
    }
  }

  /** A header that is read has a hexadecimal digit behind nothing but white space. */
  lemma {:induction false} ReadHeaderHasDigit(h: string) returns (i: nat)
    requires ParseHeader(h).Some?
    ensures i < |h| && ('0' <= h[i] <= '9' || 'a' <= h[i] <= 'f' || 'A' <= h[i] <= 'F')
    ensures forall j | 0 <= j < i :: h[j] == ' ' || '\t' <= h[j] <= '\r'
  {
    i := 0;
    if IsSpace(h[0]) {
      var later := ReadHeaderHasDigit(h[1..]);
      i := later + 1;
    }
  }

  /** And every header that has one is read. */
  lemma {:induction false} HeaderWithDigitIsRead(h: string, i: nat)
    requires i < |h| && ('0' <= h[i] <= '9' || 'a' <= h[i] <= 'f' || 'A' <= h[i] <= 'F')
    requires forall j | 0 <= j < i :: h[j] == ' ' || '\t' <= h[j] <= '\r'
    ensures ParseHeader(h).Some?
  {
    if i > 0 {
      HeaderWithDigitIsRead(h[1..], i - 1);
    }
  }

  // ---------------------------------------------------------------- frames

  predicate Fits(payload: string) {
    |payload| < SIZE_LIMIT
  }

  /** The bytes of one message: nothing at all when the size does not fit the header. */
  function Frame(payload: string): string {
    if |Header(|payload|)| != HEADER_LENGTH then "" else Header(|payload|) + payload
  }

  /** A frame is ten columns and the payload, or nothing from 16 to the power of 10 on. */
  lemma FrameIs(payload: string)
    ensures |payload| < 0x100_0000_0000 ==>
              |Frame(payload)| == 10 + |payload| && Frame(payload)[..10] == Header(|payload|) && Frame(payload)[10..] == payload
    ensures |payload| >= 0x100_0000_0000 ==> Frame(payload) == ""
  {
    HeaderFits(|payload|);
  }

  function Frames(payloads: seq<string>): string {
    if payloads == [] then "" else Frame(payloads[0]) + Frames(payloads[1..])
  }

  // ---------------------------------------------------------------- the reader

  datatype ReadEvent = Body(data: string) | BadHeader

  /** A reader: what its handlers saw, which read is outstanding, its size, and the bytes not yet taken. */
  datatype Reader = Reader(events: seq<ReadEvent>, readingBody: bool, size: nat, rest: string) {

    /** A read of exactly so many bytes can complete. */
    predicate Ready() {
      |rest| >= if readingBody then size else HEADER_LENGTH
    }

    /** The handler of the outstanding read; a bad header is followed by a body of no bytes. */
    function Handle(): (r: Reader)
      requires Ready()
    {
      if readingBody then Reader(events + [Body(rest[..size])], false, size, rest[size..])
      else
        match ParseHeader(rest[..HEADER_LENGTH])
        case Some(n) => Reader(events, true, n, rest[HEADER_LENGTH..])
        case None => Reader(events + [BadHeader], true, 0, rest[HEADER_LENGTH..])
    }
  }

  /** Runs handlers until the outstanding read lacks bytes. */
  function Consume(r: Reader): Reader
    decreases |r.rest|, r.readingBody
  {
    if r.Ready() then Consume(r.Handle()) else r
  }

  /** A new reader after the stream `s`. */
  function After(s: string): Reader {
    Consume(Reader([], false, 0, s))
  }

  function More(r: Reader, chunk: string): Reader {
    r.(rest := r.rest + chunk)
  }

  /** Bytes that arrive later do not change what the bytes at hand mean. */
  lemma HandleThenMore(r: Reader, chunk: string)
    requires r.Ready()
    ensures More(r, chunk).Ready() && More(r, chunk).Handle() == More(r.Handle(), chunk)
  {
    var k := if r.readingBody then r.size else HEADER_LENGTH;
    assert (r.rest + chunk)[..k] == r.rest[..k];
    assert (r.rest + chunk)[k..] == r.rest[k..] + chunk;
  }

  /** Chunking does not matter: consuming before or after more bytes arrive gives the same reader. */
  lemma {:induction false} ChunkingIsInvisible(r: Reader, chunk: string)
    ensures Consume(More(Consume(r), chunk)) == Consume(More(r, chunk))
    decreases |r.rest|, r.readingBody
  {
    if r.Ready() {
      HandleThenMore(r, chunk);
      ChunkingIsInvisible(r.Handle(), chunk);
    }
  }

  lemma {:induction false} ConsumeOnlyAdds(r: Reader)
    ensures r.events <= Consume(r).events
    decreases |r.rest|, r.readingBody
  {
    if r.Ready() {
      ConsumeOnlyAdds(r.Handle());
    }
  }

  /** What was read of the beginning of a stream is the beginning of what is read of it all. */
  lemma PrefixReadsPrefix(s: string, t: string)
    requires s <= t
    ensures After(s).events <= After(t).events
  {
    var start := Reader([], false, 0, s);
    var chunk := t[|s|..];
    assert t == s + chunk;
    ChunkingIsInvisible(start, chunk);
    ConsumeOnlyAdds(More(Consume(start), chunk));
  }

  /** The bodies of the payloads that fit. */
  function Bodies(payloads: seq<string>): seq<ReadEvent> {
    if payloads == [] then []
    else (if Fits(payloads[0]) then [Body(payloads[0])] else []) + Bodies(payloads[1..])
  }

  lemma HeaderIsRead(events: seq<ReadEvent>, size: nat, header: string, rest: string)
    requires |header| == HEADER_LENGTH && ParseHeader(header).Some?
    ensures var r := Reader(events, false, size, header + rest);
            r.Ready() && r.Handle() == Reader(events, true, ParseHeader(header).value, rest)
  {
    hide ParseHeader;
    assert (header + rest)[..HEADER_LENGTH] == header && (header + rest)[HEADER_LENGTH..] == rest;
  }

  /** A header that cannot be read is followed by a body of no bytes. */
  lemma BadHeaderIsRead(events: seq<ReadEvent>, size: nat, header: string, rest: string)
    requires |header| == 10 && ParseHeader(header).None?
    ensures var r := Reader(events, false, size, header + rest);
            && r.Ready() && r.Handle() == Reader(events + [BadHeader], true, 0, rest)
            && r.Handle().Ready() && r.Handle().Handle() == Reader(events + [BadHeader, Body("")], false, 0, rest)
  {
    hide ParseHeader;
    assert (header + rest)[..10] == header && (header + rest)[10..] == rest;
    assert rest[..0] == "" && rest[0..] == rest;
  }

  lemma BodyIsRead(events: seq<ReadEvent>, payload: string, rest: string)
    ensures var r := Reader(events, true, |payload|, payload + rest);
            r.Ready() && r.Handle() == Reader(events + [Body(payload)], false, |payload|, rest)
  {
    assert (payload + rest)[..|payload|] == payload && (payload + rest)[|payload|..] == rest;
  }

  /** One whole frame in front of `rest` is read as one body. */
  lemma FrameIsOneBody(events: seq<ReadEvent>, size: nat, payload: string, rest: string)
    requires Fits(payload)
    ensures Consume(Reader(events, false, size, Frame(payload) + rest))
         == Consume(Reader(events + [Body(payload)], false, |payload|, rest))
  {
    HeaderFits(|payload|);
    HeaderRoundTrip(|payload|);
    hide Header, ParseHeader, Reader.Ready, Reader.Handle;
    HeaderIsRead(events, size, Header(|payload|), payload + rest);
    BodyIsRead(events, payload, rest);
    assert Frame(payload) + rest == Header(|payload|) + (payload + rest);
  }

  /** A frame that is not complete is not read at all. */
  lemma PartOfFrameIsNoBody(events: seq<ReadEvent>, size: nat, payload: string, k: nat)
    requires k < |Frame(payload)|
    ensures Consume(Reader(events, false, size, Frame(payload)[..k])).events == events
  {
    var n := |payload|;
    HeaderFits(n);
    HeaderRoundTrip(n);
    var bytes := Frame(payload)[..k];
    var r := Reader(events, false, size, bytes);
    if k >= HEADER_LENGTH {
      assert bytes[..HEADER_LENGTH] == Header(n);
      assert !r.Handle().Ready();
    }
  }

  /** The size left behind by the last whole frame. */
  function LastSize(size: nat, payloads: seq<string>): nat
    decreases |payloads|
  {
    if payloads == [] then size
    else LastSize(if Fits(payloads[0]) then |payloads[0]| else size, payloads[1..])
  }

  /** The first of several frames in front of `rest`. */
  lemma FirstFrameIsRead(events: seq<ReadEvent>, size: nat, payload: string, others: seq<string>, rest: string)
    ensures Consume(Reader(events, false, size, Frames([payload] + others) + rest))
         == if Fits(payload) then Consume(Reader(events + [Body(payload)], false, |payload|, Frames(others) + rest))
            else Consume(Reader(events, false, size, Frames(others) + rest))
  {
    FramesCons(payload, others);
    HeaderFits(|payload|);
    Associative(Frame(payload), Frames(others), rest);
    hide Frames, Header, Consume;
    if Fits(payload) {
      FrameIsOneBody(events, size, payload, Frames(others) + rest);
    } else {
      assert Frame(payload) + (Frames(others) + rest) == Frames(others) + rest;
    }
  }

  lemma BodiesCons(size: nat, payload: string, others: seq<string>)
    ensures Bodies([payload] + others) == (if Fits(payload) then [Body(payload)] else []) + Bodies(others)
    ensures LastSize(size, [payload] + others) == LastSize(if Fits(payload) then |payload| else size, others)
  {
    assert ([payload] + others)[1..] == others;
  }

  /** Whole frames in front of `rest` are read as the bodies of the payloads that fit. */
  lemma {:induction false} FramesAreBodies(events: seq<ReadEvent>, size: nat, payloads: seq<string>, rest: string)
    ensures Consume(Reader(events, false, size, Frames(payloads) + rest))
         == Consume(Reader(events + Bodies(payloads), false, LastSize(size, payloads), rest))
    decreases |payloads|
  {
    hide Frames, Frame, Consume, Bodies, Fits;
    if payloads == [] {
      NothingFramed();
      assert "" + rest == rest && events + [] == events;
    } else {
      var p, others := payloads[0], payloads[1..];
      assert payloads == [p] + others;
      FirstFrameIsRead(events, size, p, others, rest);
      BodiesCons(size, p, others);
      if Fits(p) {
        FramesAreBodies(events + [Body(p)], |p|, others, rest);
        Associative(events, [Body(p)], Bodies(others));
      } else {
        FramesAreBodies(events, size, others, rest);
        assert [] + Bodies(others) == Bodies(others);
      }
    }
  }

  /** The stream of frames, with the first `k` bytes of one more frame behind, is read as the bodies of the
      payloads that fit, and the last one counts only when its frame is whole. */
  lemma StreamDecodes(payloads: seq<string>, last: string, k: nat)
    requires k <= |Frame(last)|
    ensures After(Frames(payloads) + Frame(last)[..k]).events
         == Bodies(payloads) + (if Fits(last) && k == |Frame(last)| then [Body(last)] else [])
  {
    FramesAreBodies([], 0, payloads, Frame(last)[..k]);
    var size := LastSize(0, payloads);
    assert [] + Bodies(payloads) == Bodies(payloads);
    HeaderFits(|last|);
    if k < |Frame(last)| {
      PartOfFrameIsNoBody(Bodies(payloads), size, last, k);
    } else if Fits(last) {
      FrameIsOneBody(Bodies(payloads), size, last, "");
      assert Frame(last) + "" == Frame(last)[..k];
    }
  }

  /** Decoding the concatenated frames of any payloads gives those that fit, in order, and ends at a frame
      boundary. */
  lemma FramesDecode(payloads: seq<string>)
    ensures After(Frames(payloads)) == Reader(Bodies(payloads), false, LastSize(0, payloads), "")
  {
    FramesAreBodies([], 0, payloads, "");
    assert Frames(payloads) + "" == Frames(payloads);
    assert [] + Bodies(payloads) == Bodies(payloads);
  }

  /** When all payloads fit, nothing is missing. */
  lemma FramesRoundTrip(payloads: seq<string>)
    requires forall p | p in payloads :: Fits(p)
    ensures After(Frames(payloads)).events == seq(|payloads|, i requires 0 <= i < |payloads| => Body(payloads[i]))
    ensures !After(Frames(payloads)).readingBody && After(Frames(payloads)).rest == ""
  {
    FramesDecode(payloads);
    BodiesOfFitting(payloads);
  }

  lemma Associative<T>(a: seq<T>, b: seq<T>, c: seq<T>)
    ensures (a + b) + c == a + (b + c)
  {
  }

  lemma FramesCons(first: string, others: seq<string>)
    ensures Frames([first] + others) == Frame(first) + Frames(others)
  {
    hide Frame;
    assert ([first] + others)[1..] == others;
  }

  lemma {:induction false} FramesConcat(a: seq<string>, b: seq<string>)
    ensures Frames(a + b) == Frames(a) + Frames(b)
  {
    hide Frames, Frame;
    if a == [] {
      NothingFramed();
      assert a + b == b;
    } else {
      assert a == [a[0]] + a[1..] && a + b == [a[0]] + (a[1..] + b);
      FramesCons(a[0], a[1..]);
      FramesCons(a[0], a[1..] + b);
      FramesConcat(a[1..], b);
      Associative(Frame(a[0]), Frames(a[1..]), Frames(b));
    }
  }

  lemma NothingFramed()
    ensures Frames([]) == "" && Bodies([]) == []
  {
  }

  lemma FramesSnoc(a: seq<string>, last: string)
    ensures Frames(a + [last]) == Frames(a) + Frame(last)
  {
    FramesConcat(a, [last]);
    hide Frame;
    assert Frames([last]) == Frame(last) + "";
  }

  lemma {:induction false} BodiesConcat(a: seq<string>, b: seq<string>)
    ensures Bodies(a + b) == Bodies(a) + Bodies(b)
  {
    if a == [] {
      assert a + b == b;
    } else {
      var first := if Fits(a[0]) then [Body(a[0])] else [];
      assert (a + b)[0] == a[0] && (a + b)[1..] == a[1..] + b;
      assert Bodies(a + b) == first + Bodies(a[1..] + b) && Bodies(a) == first + Bodies(a[1..]);
      BodiesConcat(a[1..], b);
      hide Bodies, Fits;
      assert first + (Bodies(a[1..]) + Bodies(b)) == first + Bodies(a[1..]) + Bodies(b);
    }
  }

  lemma {:induction false} BodiesOfFitting(payloads: seq<string>)
    requires forall p | p in payloads :: Fits(p)
    ensures Bodies(payloads) == seq(|payloads|, i requires 0 <= i < |payloads| => Body(payloads[i]))
  {
    if payloads != [] {
      BodiesOfFitting(payloads[1..]);
    }
  }

  // ---------------------------------------------------------------- decoding

  /** The messages of the bodies that can be decoded; the others are logged and skipped. */
  function Decoded<M>(events: seq<ReadEvent>, decode: string -> Option<M>): seq<M> {
    if events == [] then []
    else
      var e := events[0];
      (if e.Body? && decode(e.data).Some? then [decode(e.data).value] else []) + Decoded(events[1..], decode)
  }

  /** The messages of the payloads that fit and can be decoded. */
  function Decodable<M>(payloads: seq<string>, decode: string -> Option<M>): seq<M> {
    if payloads == [] then []
    else
      var p := payloads[0];
      (if Fits(p) && decode(p).Some? then [decode(p).value] else []) + Decodable(payloads[1..], decode)
  }

  lemma {:induction false} DecodedBodies<M>(payloads: seq<string>, decode: string -> Option<M>)
    ensures Decoded(Bodies(payloads), decode) == Decodable(payloads, decode)
  {
    if payloads != [] {
      DecodedBodies(payloads[1..], decode);
      if Fits(payloads[0]) {
        assert Bodies(payloads)[1..] == Bodies(payloads[1..]);
      } else {
        assert Bodies(payloads) == Bodies(payloads[1..]);
      }
    }
  }

  /** A body that cannot be decoded never shifts a frame boundary: whichever payloads are undecodable, the
      messages handled are exactly the decodable ones, in order. */
  lemma ResynchronisesAfterBadBodies<M>(payloads: seq<string>, decode: string -> Option<M>)
    ensures Decoded(After(Frames(payloads)).events, decode) == Decodable(payloads, decode)
    ensures !After(Frames(payloads)).readingBody && After(Frames(payloads)).rest == ""
  {
    FramesDecode(payloads);
    DecodedBodies(payloads, decode);
  }

  function Encoded<M>(messages: seq<M>, encode: M -> string): seq<string> {
    if messages == [] then [] else [encode(messages[0])] + Encoded(messages[1..], encode)
  }

  lemma {:induction false} EncodedAreDecodable<M>(messages: seq<M>, encode: M -> string, decode: string -> Option<M>)
    requires forall m | m in messages :: Fits(encode(m)) && decode(encode(m)) == Some(m)
    ensures Decodable(Encoded(messages, encode), decode) == messages
  {
    if messages != [] {
      EncodedAreDecodable(messages[1..], encode, decode);
      assert Encoded(messages, encode)[1..] == Encoded(messages[1..], encode);
      assert messages == [messages[0]] + messages[1..];
    }
  }

  /** With a serialization that decoding inverts, the messages handled are the messages framed. */
  lemma MessagesRoundTrip<M>(messages: seq<M>, encode: M -> string, decode: string -> Option<M>)
    requires forall m | m in messages :: Fits(encode(m)) && decode(encode(m)) == Some(m)
    ensures Decoded(After(Frames(Encoded(messages, encode))).events, decode) == messages
  {
    ResynchronisesAfterBadBodies(Encoded(messages, encode), decode);
    EncodedAreDecodable(messages, encode, decode);
  }

  /** The reading half of a user: handlers run whenever the outstanding read has its bytes. */
  class FrameReader {
    var inboundHeader: string
    var inboundSize: nat
    var readingBody: bool
    var arrived: string
    var events: seq<ReadEvent>
    ghost var received: string

    constructor ()
      ensures Valid() && received == "" && events == []
    {
      inboundHeader, inboundSize, readingBody, arrived, events, received := "", 0, false, "", [], "";
    }

    function View(): Reader
      reads this
    {
      Reader(events, readingBody, inboundSize, arrived)
    }

    /** The reader is where the bytes received so far take it. */
    ghost predicate Valid()
      reads this
    {
      View() == After(received)
    }

    /** A chunk of any size arrives. */
    method Receive(chunk: string)
      requires Valid()
      modifies this
      ensures Valid() && received == old(received) + chunk
    {
      ghost var before := Reader([], false, 0, received);
      ChunkingIsInvisible(before, chunk);
      received := received + chunk;
      arrived := arrived + chunk;
      while View().Ready()
        invariant received == old(received) + chunk
        invariant Consume(View()) == After(received)
        decreases |arrived|, readingBody
      {
        if readingBody {
          ReadMessage();
        } else {
          ReadHeader();
        }
      }
    }

    method ReadHeader()
      requires !readingBody && View().Ready()
      modifies this
      ensures View() == old(View()).Handle() && received == old(received)
    {
      inboundHeader := arrived[..HEADER_LENGTH];
      arrived := arrived[HEADER_LENGTH..];
      var inboundDataSize := 0;
      match ParseHeader(inboundHeader) {
        case Some(n) => inboundDataSize := n;
        case None => events := events + [BadHeader];
      }
      inboundSize := inboundDataSize;
      readingBody := true;
    }

    method ReadMessage()
      requires readingBody && View().Ready()
      modifies this
      ensures View() == old(View()).Handle() && received == old(received)
    {
      events := events + [Body(arrived[..inboundSize])];
      arrived := arrived[inboundSize..];
      readingBody := false;
    }
  }
}
