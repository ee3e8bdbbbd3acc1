/** What the reader makes of a byte stream does not depend on how it arrives; printed frames come back unchanged. */
module LspStreams {
  import opened Common
  import opened Decimal
  import opened LspFraming

  // ---------- arrival in pieces ----------

  lemma SeparatorStays(a: seq<Byte>, b: seq<Byte>)
    requires FindSeparator(a, 0).Some?
    ensures FindSeparator(a + b, 0) == FindSeparator(a, 0)
  {
    var k := FindSeparator(a, 0).value;
    assert SeparatorAt(a + b, k);
    forall j: nat | j < k ensures !SeparatorAt(a + b, j) {
      assert !SeparatorAt(a, j);
    }
  }

  /** Once the reader knows what comes first, more bytes do not change it. */
  lemma HeadStays<M>(a: seq<Byte>, b: seq<Byte>, decode: seq<Byte> -> Option<M>)
    requires !HeadOf(a, decode).Incomplete?
    ensures HeadOf(a + b, decode) == HeadOf(a, decode)
  {
    SeparatorStays(a, b);
    var k := FindSeparator(a, 0).value;
    assert (a + b)[..k] == a[..k];
    var length := FrameLength(a[..k]);
    if length.Ok? {
      assert (a + b)[k + 4..k + 4 + length.value] == a[k + 4..k + 4 + length.value];
    }
  }

  lemma Shift<M>(a: seq<M>, b: seq<M>, s: Scanned<M>)
    ensures After(a, After(b, s)) == After(a + b, s)
  {
    assert a + (b + s.messages) == a + b + s.messages;
  }

  /** Scanning what is left together with new bytes continues the scan. */
  lemma {:induction false} ScanAppend<M>(a: seq<Byte>, b: seq<Byte>, decode: seq<Byte> -> Option<M>)
    ensures var s := Scan(a, decode);
            Scan(a + b, decode) == if s.failure.None? then After(s.messages, Scan(s.rest + b, decode)) else s.(rest := s.rest + b)
    decreases |a|
  {
    var head := HeadOf(a, decode);
    if head.Incomplete? {
      var later := Scan(a + b, decode);
      assert [] + later.messages == later.messages;
    } else {
      HeadStays(a, b, decode);
      if head.Broken? {
        assert (a + b)[head.drop..] == a[head.drop..] + b;
      } else {
        assert (a + b)[head.end..] == a[head.end..] + b;
        ScanAppend(a[head.end..], b, decode);
        var first := Scan(a[head.end..], decode);
        if first.failure.None? {
          Shift([head.message], first.messages, Scan(first.rest + b, decode));
        }
      }
    }
  }

  lemma {:induction false} ScanNeverOverflows<M>(b: seq<Byte>, decode: seq<Byte> -> Option<M>)
    ensures Scan(b, decode).failure != Some(BufferTooLarge)
    decreases |b|
  {
    var head := HeadOf(b, decode);
    if head.Message? {
      ScanNeverOverflows(b[head.end..], decode);
    }
  }

  /** A piece is refused exactly when it makes the buffer longer than 4 MiB and 64 KiB; then nothing is read from it. */
  lemma OverflowExactlyWhen<M>(buffer: seq<Byte>, piece: seq<Byte>, decode: seq<Byte> -> Option<M>)
    ensures Receive(buffer, piece, decode).failure == Some(BufferTooLarge) <==> |buffer| + |piece| > 4_259_840
    ensures |buffer| + |piece| > 4_259_840 ==> Receive(buffer, piece, decode) == Scanned([], buffer + piece, Some(BufferTooLarge))
  {
    ScanNeverOverflows(buffer + piece, decode);
  }

  /** Pieces received one after the other, up to the first error. */
  function Feed<M>(buffer: seq<Byte>, pieces: seq<seq<Byte>>, decode: seq<Byte> -> Option<M>): Scanned<M>
    decreases |pieces|
  {
    if pieces == [] then Scanned([], buffer, None)
    else
      var first := Receive(buffer, pieces[0], decode);
      if first.failure.Some? then first else After(first.messages, Feed(first.rest, pieces[1..], decode))
  }

  /** Nothing more can be read from the buffer; true of what any scan leaves behind. */
  ghost predicate Settled<M>(buffer: seq<Byte>, decode: seq<Byte> -> Option<M>) {
    Scan(buffer, decode) == Scanned([], buffer, None)
  }

  lemma {:induction false} RestIsSettled<M>(b: seq<Byte>, decode: seq<Byte> -> Option<M>)
    ensures Scan(b, decode).failure.None? ==> Settled(Scan(b, decode).rest, decode)
    decreases |b|
  {
    var head := HeadOf(b, decode);
    if head.Message? { RestIsSettled(b[head.end..], decode); }
  }

  /** Same messages and failure, and the same bytes left when there was no failure. */
  ghost predicate Agree<M>(fed: Scanned<M>, scanned: Scanned<M>) {
    && fed.messages == scanned.messages && fed.failure == scanned.failure
    && (fed.failure.None? ==> fed.rest == scanned.rest)
  }

  lemma FirstPiece<M>(buffer: seq<Byte>, piece: seq<Byte>, later: seq<Byte>, decode: seq<Byte> -> Option<M>)
    requires Receive(buffer, piece, decode).failure != Some(BufferTooLarge)
    ensures var first := Receive(buffer, piece, decode);
            && first == Scan(buffer + piece, decode)
            && (first.failure.Some? ==> Agree(first, Scan(buffer + piece + later, decode)))
            && (first.failure.None? ==> Scan(buffer + piece + later, decode) == After(first.messages, Scan(first.rest + later, decode)))
            && (first.failure.None? ==> Settled(first.rest, decode))
  {
    ScanAppend(buffer + piece, later, decode);
    RestIsSettled(buffer + piece, decode);
  }

  lemma AgreeAfter<M>(before: seq<M>, fed: Scanned<M>, scanned: Scanned<M>)
    requires Agree(fed, scanned)
    ensures Agree(After(before, fed), After(before, scanned))
  {
  }

  /** Main result: unless a piece overflows the buffer, pieces are read exactly like their concatenation. */
  lemma {:induction false} FeedIsScan<M>(buffer: seq<Byte>, pieces: seq<seq<Byte>>, decode: seq<Byte> -> Option<M>)
    requires Settled(buffer, decode) && Feed(buffer, pieces, decode).failure != Some(BufferTooLarge)
    ensures Agree(Feed(buffer, pieces, decode), Scan(buffer + Flatten(pieces), decode))
    decreases |pieces|
  {
    if pieces == [] {
      assert buffer + Flatten(pieces) == buffer;
    } else {
      var later := Flatten(pieces[1..]);
      var first := Receive(buffer, pieces[0], decode);
      assert buffer + Flatten(pieces) == buffer + pieces[0] + later;
      FirstPiece(buffer, pieces[0], later, decode);
      if first.failure.None? {
        FeedIsScan(first.rest, pieces[1..], decode);
        AgreeAfter(first.messages, Feed(first.rest, pieces[1..], decode), Scan(first.rest + later, decode));
      }
    }
  }

  /** Two ways of cutting the same bytes give the same messages. */
  lemma PiecesDoNotMatter<M>(one: seq<seq<Byte>>, other: seq<seq<Byte>>, decode: seq<Byte> -> Option<M>)
    requires Flatten(one) == Flatten(other)
    requires Feed([], one, decode).failure != Some(BufferTooLarge) && Feed([], other, decode).failure != Some(BufferTooLarge)
    ensures Feed([], one, decode).messages == Feed([], other, decode).messages
    ensures Feed([], one, decode).failure == Feed([], other, decode).failure
  {
    FeedIsScan([], one, decode);
    FeedIsScan([], other, decode);
  }

  // ---------- the writer ----------

  const LENGTH_FIELD := "Content-Length: "

  const BLANK_LINE: seq<Byte> := [13, 10, 13, 10]

  function ToBytes(s: string): (b: seq<Byte>)
    requires forall i :: 0 <= i < |s| ==> s[i] as int < 128
    ensures |b| == |s|
  {
    seq(|s|, i requires 0 <= i < |s| => s[i] as int)
  }

  predicate HeaderChar(c: char) { ' ' <= c <= 'z' }

  lemma HeaderChars(n: nat)
    ensures forall i :: 0 <= i < |LENGTH_FIELD + Print(n)| ==> HeaderChar((LENGTH_FIELD + Print(n))[i])
  {
    PrintParses(n);
    forall i | 0 <= i < |LENGTH_FIELD + Print(n)| ensures HeaderChar((LENGTH_FIELD + Print(n))[i]) {
      if i >= |LENGTH_FIELD| { assert IsDigit(Print(n)[i - |LENGTH_FIELD|]); }
    }
  }

  function HeaderText(n: nat): (h: string)
    ensures forall i :: 0 <= i < |h| ==> HeaderChar(h[i])
  {
    HeaderChars(n);
    LENGTH_FIELD + Print(n)
  }

  function Header(n: nat): (b: seq<Byte>)
    ensures |b| == |HeaderText(n)|
  {
    ToBytes(HeaderText(n))
  }

  function Frame(payload: seq<Byte>): seq<Byte> { Header(|payload|) + BLANK_LINE + payload }

  class Writer {
    var output: seq<Byte>

    constructor ()
      ensures output == []
    {
      output := [];
    }

    method Write(payload: seq<Byte>)
      modifies this
      ensures output == old(output) + Frame(payload)
    {
      output := output + Header(|payload|) + BLANK_LINE;
      output := output + payload;
    }
  }

  function Stream<M>(messages: seq<M>, encode: M -> seq<Byte>): seq<Byte> {
    if messages == [] then [] else Frame(encode(messages[0])) + Stream(messages[1..], encode)
  }

  // ---------- a printed header is read back ----------

  lemma {:induction false} DigitsToEnd(h: string, i: nat)
    requires i <= |h| && forall k :: i <= k < |h| ==> IsDigit(h[k])
    ensures SkipDigits(h, i) == |h|
    decreases |h| - i
  {
    if i < |h| { DigitsToEnd(h, i + 1); }
  }

  lemma FieldIsFound(h: string)
    requires |LENGTH_FIELD| <= |h| && h[..|LENGTH_FIELD|] == LENGTH_FIELD
    ensures FieldAt(h, 0) && |FIELD| == 15 && h[15] == ' '
  {
    forall k | 0 <= k < |FIELD| ensures Lower(h[k]) == FIELD[k] {
      assert h[k] == LENGTH_FIELD[k];
      SameName(k);
    }
    assert h[15] == LENGTH_FIELD[15];
  }

  lemma SameName(k: nat)
    requires k < |FIELD|
    ensures k < |LENGTH_FIELD| && Lower(LENGTH_FIELD[k]) == FIELD[k]
  {
  }

  lemma HeaderReads(n: nat)
    ensures FirstLength(HeaderText(n), 0) == Some(n)
  {
    var h := HeaderText(n);
    PrintParses(n);
    FieldIsFound(h);
    assert |LENGTH_FIELD| == 16;
    assert h[16..] == Print(n);
    assert h[16] == Print(n)[0] && IsDigit(h[16]);
    assert SkipSpaces(h, 15) == SkipSpaces(h, 16) == 16;
    forall k | 16 <= k < |h| ensures IsDigit(h[k]) { assert h[k] == Print(n)[k - 16]; }
    DigitsToEnd(h, 16);
    assert h[16..|h|] == Print(n);
    assert LengthAt(h, 0) == Some(n);
  }

  lemma AsciiOfHeader(n: nat)
    ensures Ascii(Header(n)) == HeaderText(n)
  {
    forall i | 0 <= i < |Header(n)| ensures Ascii(Header(n))[i] == HeaderText(n)[i] { }
  }

  lemma FrameLengthOfHeader(n: nat)
    requires n <= MAX_MESSAGE_BYTES
    ensures FrameLength(Header(n)) == Ok(n)
  {
    AsciiOfHeader(n);
    HeaderReads(n);
  }

  lemma NoReturnInHeader(n: nat)
    ensures forall k :: 0 <= k < |Header(n)| ==> Header(n)[k] != 13
  {
    forall k | 0 <= k < |Header(n)| ensures Header(n)[k] != 13 {
      assert HeaderChar(HeaderText(n)[k]);
    }
  }

  /** In a frame or any prefix of one, the only place for the blank line is right after the header. */
  lemma SeparatorInFrame(b: seq<Byte>, n: nat, k: nat)
    requires |Header(n)| <= |b| ==> b[..|Header(n)|] == Header(n)
    requires |b| < |Header(n)| ==> b == Header(n)[..|b|]
    requires SeparatorAt(b, k)
    ensures k >= |Header(n)|
  {
    NoReturnInHeader(n);
    assert forall j :: 0 <= j < |Header(n)| && j < |b| ==> b[j] == Header(n)[j];
  }

  lemma FrameHead<M>(m: M, tail: seq<Byte>, encode: M -> seq<Byte>, decode: seq<Byte> -> Option<M>)
    requires decode(encode(m)) == Some(m) && |encode(m)| <= MAX_MESSAGE_BYTES
    ensures HeadOf(Frame(encode(m)) + tail, decode) == Message(m, |Frame(encode(m))|)
  {
    var payload := encode(m);
    var n := |payload|;
    var b, k := Frame(payload) + tail, |Header(n)|;
    assert b[..k] == Header(n);
    assert b[k] == 13 && b[k + 1] == 10 && b[k + 2] == 13 && b[k + 3] == 10;
    assert SeparatorAt(b, k);
    forall j: nat | SeparatorAt(b, j) ensures j >= k { SeparatorInFrame(b, n, j); }
    FrameLengthOfHeader(n);
    assert b[k + 4..k + 4 + n] == payload;
  }

  lemma FramePrefix<M>(b: seq<Byte>, payload: seq<Byte>, decode: seq<Byte> -> Option<M>)
    requires b < Frame(payload) && |payload| <= MAX_MESSAGE_BYTES
    ensures HeadOf(b, decode) == Incomplete
  {
    var n := |payload|;
    var whole, k := Frame(payload), |Header(n)|;
    assert whole[..k] == Header(n);
    assert b == whole[..|b|];
    forall j: nat | SeparatorAt(b, j) ensures j >= k { SeparatorInFrame(b, n, j); }
    if |b| >= k + 4 {
      assert whole[k] == 13 && whole[k + 1] == 10 && whole[k + 2] == 13 && whole[k + 3] == 10;
      assert SeparatorAt(b, k);
      assert b[..k] == Header(n);
      FrameLengthOfHeader(n);
    }
  }

  // ---------- round trip ----------

  ghost predicate Sendable<M>(messages: seq<M>, encode: M -> seq<Byte>, decode: seq<Byte> -> Option<M>) {
    forall i :: 0 <= i < |messages| ==> decode(encode(messages[i])) == Some(messages[i]) && |encode(messages[i])| <= MAX_MESSAGE_BYTES
  }

  /** The messages whose frames arrived whole, and the part of the next frame that did. */
  ghost predicate ReadSoFar<M>(s: Scanned<M>, arrived: seq<Byte>, messages: seq<M>, encode: M -> seq<Byte>) {
    var k := |s.messages|;
    && s.failure.None?
    && k <= |messages| && s.messages == messages[..k]
    && arrived == Stream(messages[..k], encode) + s.rest
    && (if k < |messages| then s.rest < Frame(encode(messages[k])) else s.rest == [])
  }

  lemma ReadOneMore<M>(s: Scanned<M>, arrived: seq<Byte>, messages: seq<M>, encode: M -> seq<Byte>)
    requires messages != [] && ReadSoFar(s, arrived, messages[1..], encode)
    ensures ReadSoFar(After([messages[0]], s), Frame(encode(messages[0])) + arrived, messages, encode)
  {
    var k := |s.messages|;
    assert messages[..k + 1] == [messages[0]] + messages[1..][..k];
    assert messages[..k + 1][0] == messages[0] && messages[..k + 1][1..] == messages[1..][..k];
    var frame := Frame(encode(messages[0]));
    assert frame + (Stream(messages[1..][..k], encode) + s.rest) == frame + Stream(messages[1..][..k], encode) + s.rest;
  }

  lemma {:induction false} ScanOfStream<M>(arrived: seq<Byte>, messages: seq<M>, encode: M -> seq<Byte>,
                                           decode: seq<Byte> -> Option<M>)
    requires arrived <= Stream(messages, encode) && Sendable(messages, encode, decode)
    ensures ReadSoFar(Scan(arrived, decode), arrived, messages, encode)
    decreases |messages|
  {
    if messages == [] {
      assert FindSeparator(arrived, 0).None?;
    } else {
      var frame := Frame(encode(messages[0]));
      if |arrived| < |frame| {
        assert arrived == frame[..|arrived|];
        FramePrefix(arrived, encode(messages[0]), decode);
        assert messages[..0] == [];
        assert arrived == Stream(messages[..0], encode) + arrived;
      } else {
        var tail := arrived[|frame|..];
        assert arrived == frame + tail;
        assert Stream(messages, encode)[|frame|..] == Stream(messages[1..], encode);
        FrameHead(messages[0], tail, encode, decode);
        ScanOfStream(tail, messages[1..], encode, decode);
        ReadOneMore(Scan(tail, decode), tail, messages, encode);
      }
    }
  }

  /**
   * Main result: printed messages, cut into any pieces that do not overflow the buffer, are dispatched exactly
   * as far as their frames have arrived, and only an incomplete frame stays buffered.
   */
  lemma RoundTrip<M>(pieces: seq<seq<Byte>>, messages: seq<M>, encode: M -> seq<Byte>, decode: seq<Byte> -> Option<M>)
    requires Flatten(pieces) <= Stream(messages, encode) && Sendable(messages, encode, decode)
    requires Feed([], pieces, decode).failure != Some(BufferTooLarge)
    ensures ReadSoFar(Feed([], pieces, decode), Flatten(pieces), messages, encode)
    ensures Flatten(pieces) == Stream(messages, encode) ==> Feed([], pieces, decode) == Scanned(messages, [], None)
  {
    FeedIsScan([], pieces, decode);
    assert [] + Flatten(pieces) == Flatten(pieces);
    ScanOfStream(Flatten(pieces), messages, encode, decode);
    var fed := Feed([], pieces, decode);
    if Flatten(pieces) == Stream(messages, encode) {
      AllRead(fed, messages, encode);
    }
  }

  lemma {:induction false} StreamAppend<M>(a: seq<M>, b: seq<M>, encode: M -> seq<Byte>)
    ensures Stream(a + b, encode) == Stream(a, encode) + Stream(b, encode)
  {
    if a == [] {
      assert a + b == b;
    } else {
      assert (a + b)[1..] == a[1..] + b;
      StreamAppend(a[1..], b, encode);
    }
  }

  lemma StreamSplit<M>(messages: seq<M>, k: nat, encode: M -> seq<Byte>)
    requires k < |messages|
    ensures |Stream(messages, encode)| >= |Stream(messages[..k], encode)| + |Frame(encode(messages[k]))|
  {
    assert messages == messages[..k] + messages[k..];
    StreamAppend(messages[..k], messages[k..], encode);
  }

  lemma AllRead<M>(s: Scanned<M>, messages: seq<M>, encode: M -> seq<Byte>)
    requires ReadSoFar(s, Stream(messages, encode), messages, encode)
    ensures s == Scanned(messages, [], None)
  {
    var k := |s.messages|;
    if k < |messages| {
      StreamSplit(messages, k, encode);
      assert false;
    }
    assert messages[..k] == messages;
  }
}
