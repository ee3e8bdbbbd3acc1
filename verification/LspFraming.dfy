/**
 * Message framing of src/lsp-server.js, after the Base Protocol section of the Language Server Protocol 3.17
 * specification: the writer's frames, the reader's loop over a growing buffer, and how the two fit together.
 *
 * JSON is abstract: `decode` gives a payload's message, or none when it does not parse.
 */
module LspFraming {
  import opened Common
  import opened Decimal

  const MAX_MESSAGE_BYTES := 4 * 1024 * 1024
  const MAX_BUFFERED_BYTES := MAX_MESSAGE_BYTES + 64 * 1024

  type Byte = b: int | 0 <= b < 256

  datatype Failure = MissingLength | MessageTooLarge | BadPayload | BufferTooLarge

  // ---------- the header ----------

  predicate SeparatorAt(b: seq<Byte>, k: nat) {
    k + 4 <= |b| && b[k] == 13 && b[k + 1] == 10 && b[k + 2] == 13 && b[k + 3] == 10
  }

  /** Position of the first blank line at or after `from`. */
  function FindSeparator(b: seq<Byte>, from: nat): (r: Option<nat>)
    ensures r.Some? ==> from <= r.value && SeparatorAt(b, r.value)
    ensures forall k :: from <= k && (r.None? || k < r.value) ==> !SeparatorAt(b, k)
    decreases |b| - from
  {
    if from + 4 > |b| then None
    else if SeparatorAt(b, from) then Some(from)
    else FindSeparator(b, from + 1)
  }

  /** Decoding as ASCII drops the high bit. */
  function Ascii(b: seq<Byte>): (s: string)
    ensures |s| == |b|
  {
    seq(|b|, i requires 0 <= i < |b| => (b[i] % 128) as char)
  }

  predicate IsSpace(c: char) { c == ' ' || 9 as char <= c <= 13 as char }

  predicate IsLineEnd(c: char) { c == '\n' || c == '\r' }

  function Lower(c: char): char { if 'A' <= c <= 'Z' then (c as int + 32) as char else c }

  const FIELD := "content-length:"

  predicate FieldAt(h: string, i: nat) {
    i + |FIELD| <= |h| && forall k :: 0 <= k < |FIELD| ==> Lower(h[i + k]) == FIELD[k]
  }

  function SkipSpaces(h: string, i: nat): (r: nat)
    requires i <= |h|
    ensures i <= r <= |h|
    decreases |h| - i
  {
    if i < |h| && IsSpace(h[i]) then SkipSpaces(h, i + 1) else i
  }

  function SkipDigits(h: string, i: nat): (r: nat)
    requires i <= |h|
    ensures i <= r <= |h| && forall k :: i <= k < r ==> IsDigit(h[k])
    decreases |h| - i
  {
    if i < |h| && IsDigit(h[i]) then SkipDigits(h, i + 1) else i
  }

  /** The length field at a position: the name, any white space, digits up to the end of a line. */
  function LengthAt(h: string, i: nat): Option<nat> {
    if i > |h| || !(i == 0 || IsLineEnd(h[i - 1])) || !FieldAt(h, i) then None
    else
      var from := SkipSpaces(h, i + |FIELD|);
      var to := SkipDigits(h, from);
      if to > from && (to == |h| || IsLineEnd(h[to])) then Some(Parse(h[from..to])) else None
  }

  function FirstLength(h: string, from: nat): Option<nat>
    decreases |h| - from
  {
    if from > |h| then None
    else if LengthAt(h, from).Some? then LengthAt(h, from)
    else FirstLength(h, from + 1)
  }

  function FrameLength(header: seq<Byte>): Result<nat, Failure> {
    var length := FirstLength(Ascii(header), 0);
    if length.None? then Err(MissingLength)
    else if length.value > MAX_MESSAGE_BYTES then Err(MessageTooLarge)
    else Ok(length.value)
  }

  // ---------- what a buffer holds ----------

  /** The messages of a buffer, what is left of it, and the error that stopped the reader, if any. */
  datatype Scanned<M> = Scanned(messages: seq<M>, rest: seq<Byte>, failure: Option<Failure>)

  /** The first thing the reader does with a buffer. */
  datatype Head<M> = Incomplete | Broken(failure: Failure, drop: nat) | Message(message: M, end: nat)

  function HeadOf<M>(b: seq<Byte>, decode: seq<Byte> -> Option<M>): (r: Head<M>)
    ensures r.Message? ==> 0 < r.end <= |b|
    ensures r.Broken? ==> r.drop <= |b|
  {
    var separator := FindSeparator(b, 0);
    if separator.None? then Incomplete
    else
      var length := FrameLength(b[..separator.value]);
      if length.Err? then Broken(length.error, 0)
      else
        var start, end := separator.value + 4, separator.value + 4 + length.value;
        if |b| < end then Incomplete
        else
          var message := decode(b[start..end]);
          if message.None? then Broken(BadPayload, end) else Message(message.value, end)
  }

  function Scan<M>(b: seq<Byte>, decode: seq<Byte> -> Option<M>): Scanned<M>
    decreases |b|
  {
    match HeadOf(b, decode)
    case Incomplete => Scanned([], b, None)
    case Broken(failure, drop) => Scanned([], b[drop..], Some(failure))
    case Message(m, end) =>
      var later := Scan(b[end..], decode);
      later.(messages := [m] + later.messages)
  }

  /** A scan that comes after messages already dispatched. */
  function After<M>(before: seq<M>, s: Scanned<M>): Scanned<M> { s.(messages := before + s.messages) }

  lemma AfterHead<M>(before: seq<M>, b: seq<Byte>, decode: seq<Byte> -> Option<M>)
    ensures var head := HeadOf(b, decode);
            After(before, Scan(b, decode))
              == if head.Incomplete? then Scanned(before, b, None)
                 else if head.Broken? then Scanned(before, b[head.drop..], Some(head.failure))
                 else After(before + [head.message], Scan(b[head.end..], decode))
  {
    var head := HeadOf(b, decode);
    if head.Message? {
      var later := Scan(b[head.end..], decode);
      assert before + ([head.message] + later.messages) == before + [head.message] + later.messages;
    }
  }

  // ---------- the reader ----------

  class Reader<M> {
    var buffer: seq<Byte>
    var dispatched: seq<M>
    const decode: seq<Byte> -> Option<M>

    constructor (decode: seq<Byte> -> Option<M>)
      ensures buffer == [] && dispatched == [] && this.decode == decode
    {
      buffer, dispatched := [], [];
      this.decode := decode;
    }

    method First() returns (head: Head<M>)
      ensures head == HeadOf(buffer, decode)
    {
      var separator := FindSeparator(buffer, 0);
      if separator.None? {
        return Incomplete;
      }
      var length := FrameLength(buffer[..separator.value]);
      if length.Err? {
        return Broken(length.error, 0);
      }
      var start, end := separator.value + 4, separator.value + 4 + length.value;
      if |buffer| < end {
        return Incomplete;
      }
      var message := decode(buffer[start..end]);
      return if message.None? then Broken(BadPayload, end) else Message(message.value, end);
    }

    method Consume() returns (failure: Option<Failure>)
      modifies this
      ensures Scanned(dispatched, buffer, failure) == After(old(dispatched), Scan(old(buffer), decode))
    {
      ghost var goal := After(dispatched, Scan(buffer, decode));
      while true
        invariant goal == After(dispatched, Scan(buffer, decode))
        decreases |buffer|
      {
        var head := First();
        AfterHead(dispatched, buffer, decode);
        match head {
          case Incomplete =>
            return None;
          case Broken(e, drop) =>
            buffer := buffer[drop..];
            return Some(e);
          case Message(message, end) =>
            buffer, dispatched := buffer[end..], dispatched + [message];
        }
      }
    }

    /** An oversized buffer is an error before anything is read from it. */
    method OnData(chunk: seq<Byte>) returns (failure: Option<Failure>)
      modifies this
      ensures Scanned(dispatched, buffer, failure)
           == After(old(dispatched), Receive(old(buffer), chunk, decode))
    {
      buffer := buffer + chunk;
      if |buffer| > MAX_BUFFERED_BYTES {
        assert old(dispatched) + [] == dispatched;
        return Some(BufferTooLarge);
      }
      failure := Consume();
    }
  }

  function Receive<M>(buffer: seq<Byte>, chunk: seq<Byte>, decode: seq<Byte> -> Option<M>): Scanned<M> {
    if |buffer + chunk| > MAX_BUFFERED_BYTES then Scanned([], buffer + chunk, Some(BufferTooLarge))
    else Scan(buffer + chunk, decode)
  }
}
