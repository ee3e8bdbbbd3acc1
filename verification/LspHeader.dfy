/** Which header texts carry a length, said without the scanner (src/lsp-server.js:203). */
module LspHeader {
  import opened Common
  import opened Decimal
  import opened LspFraming

  predicate AllSpaces(s: string) { forall c :: c in s ==> c == ' ' || 9 as char <= c <= 13 as char }

  predicate AllDigits(s: string) { forall c :: c in s ==> IsDigit(c) }

  /** The name in any case, any white space, and digits up to the end of a line or of the header. */
  ghost predicate FieldOf(text: string, name: string, spaces: string, digits: string, rest: string) {
    && text == name + spaces + digits + rest
    && |name| == 15 && (forall k :: 0 <= k < 15 ==> Lower(name[k]) == "content-length:"[k])
    && AllSpaces(spaces) && digits != "" && AllDigits(digits)
    && (rest == "" || rest[0] == '\n' || rest[0] == '\r')
  }

  /** A line of the header, the first or any later one, is a length field. */
  ghost predicate LengthLine(h: string, i: nat, n: nat) {
    && i <= |h| && (i == 0 || h[i - 1] == '\n' || h[i - 1] == '\r')
    && exists name, spaces, digits, rest :: FieldOf(h[i..], name, spaces, digits, rest) && Parse(digits) == n
  }

  lemma {:induction false} SkippedSpaces(h: string, i: nat)
    requires i <= |h|
    ensures forall k :: i <= k < SkipSpaces(h, i) ==> IsSpace(h[k])
    ensures SkipSpaces(h, i) < |h| ==> !IsSpace(h[SkipSpaces(h, i)])
    decreases |h| - i
  {
    if i < |h| && IsSpace(h[i]) {
      SkippedSpaces(h, i + 1);
    }
  }

  lemma {:induction false} SkippedDigits(h: string, i: nat)
    requires i <= |h|
    ensures SkipDigits(h, i) < |h| ==> !IsDigit(h[SkipDigits(h, i)])
    decreases |h| - i
  {
    if i < |h| && IsDigit(h[i]) {
      SkippedDigits(h, i + 1);
    }
  }

  lemma {:induction false} SpacesSkipped(h: string, i: nat, to: nat)
    requires i <= to < |h| && (forall k :: i <= k < to ==> IsSpace(h[k])) && !IsSpace(h[to])
    ensures SkipSpaces(h, i) == to
    decreases |h| - i
  {
    if i < to {
      SpacesSkipped(h, i + 1, to);
    }
  }

  lemma {:induction false} DigitsSkipped(h: string, i: nat, to: nat)
    requires i <= to <= |h| && (forall k :: i <= k < to ==> IsDigit(h[k])) && (to < |h| ==> !IsDigit(h[to]))
    ensures SkipDigits(h, i) == to
    decreases |h| - i
  {
    if i < to {
      DigitsSkipped(h, i + 1, to);
    }
  }

  lemma FoundIsField(h: string, i: nat)
    requires LengthAt(h, i).Some?
    ensures LengthLine(h, i, LengthAt(h, i).value)
  {
    var from := SkipSpaces(h, i + |FIELD|);
    var to := SkipDigits(h, from);
    SkippedSpaces(h, i + |FIELD|);
    var name, spaces, digits, rest := h[i..i + 15], h[i + 15..from], h[from..to], h[to..];
    assert h[i..] == name + spaces + digits + rest;
    forall k | 0 <= k < 15 ensures Lower(name[k]) == "content-length:"[k] { assert name[k] == h[i + k] && |FIELD| == 15; }
    assert AllSpaces(spaces) && AllDigits(digits);
    assert rest != "" ==> rest[0] == h[to];
    assert FieldOf(h[i..], name, spaces, digits, rest);
  }

  lemma FieldIsFound(h: string, i: nat, name: string, spaces: string, digits: string, rest: string)
    requires i <= |h| && (i == 0 || IsLineEnd(h[i - 1])) && FieldOf(h[i..], name, spaces, digits, rest)
    ensures LengthAt(h, i) == Some(Parse(digits))
  {
    var from := i + 15 + |spaces|;
    var to := from + |digits|;
    Pieces(h, i, name, spaces, digits, rest);
    SpacesSkipped(h, i + 15, from);
    DigitsSkipped(h, from, to);
  }

  lemma Pieces(h: string, i: nat, name: string, spaces: string, digits: string, rest: string)
    requires i <= |h| && FieldOf(h[i..], name, spaces, digits, rest)
    ensures var from, to := i + 15 + |spaces|, i + 15 + |spaces| + |digits|;
            && to <= |h| && FieldAt(h, i) && h[from..to] == digits
            && (forall k :: i + 15 <= k < from ==> IsSpace(h[k]))
            && (forall k :: from <= k < to ==> IsDigit(h[k])) && !IsSpace(h[from])
            && (to < |h| ==> IsLineEnd(h[to]))
  {
    var from, to := i + 15 + |spaces|, i + 15 + |spaces| + |digits|;
    var text := h[i..];
    assert |text| == |h| - i;
    forall k | 0 <= k < 15 ensures h[i + k] == name[k] { assert h[i + k] == text[k]; }
    forall k | i + 15 <= k < from ensures IsSpace(h[k]) { assert h[k] == text[k - i] == spaces[k - i - 15]; assert h[k] in spaces; }
    forall k | from <= k < to ensures h[k] == digits[k - from] && IsDigit(h[k]) {
      assert h[k] == text[k - i] == digits[k - from];
      assert h[k] in digits;
    }
    assert h[from] == digits[0];
    if to < |h| { assert h[to] == text[to - i] == rest[0]; }
  }

  lemma LengthAtMeans(h: string, i: nat, n: nat)
    ensures LengthAt(h, i) == Some(n) <==> LengthLine(h, i, n)
  {
    if LengthAt(h, i).Some? {
      FoundIsField(h, i);
    }
    if LengthLine(h, i, n) {
      var name, spaces, digits, rest :| FieldOf(h[i..], name, spaces, digits, rest) && Parse(digits) == n;
      FieldIsFound(h, i, name, spaces, digits, rest);
    }
  }

  ghost predicate FirstAt(h: string, from: nat, i: nat, n: nat) {
    from <= i && LengthAt(h, i) == Some(n) && forall j: nat :: from <= j < i ==> LengthAt(h, j).None?
  }

  lemma {:induction false} FoundFirst(h: string, from: nat) returns (i: nat)
    requires FirstLength(h, from).Some?
    ensures FirstAt(h, from, i, FirstLength(h, from).value)
    decreases |h| - from
  {
    if LengthAt(h, from).Some? {
      i := from;
    } else {
      i := FoundFirst(h, from + 1);
    }
  }

  lemma {:induction false} FirstIsFound(h: string, from: nat, i: nat, n: nat)
    requires FirstAt(h, from, i, n)
    ensures FirstLength(h, from) == Some(n)
    decreases |h| - from
  {
    if from < i {
      assert LengthAt(h, from).None?;
      FirstIsFound(h, from + 1, i, n);
    }
  }

  /** The first line that is a length field starts here. */
  ghost predicate FirstLengthLine(h: string, i: nat, n: nat) {
    LengthLine(h, i, n) && forall j: nat, m: nat :: j < i ==> !LengthLine(h, j, m)
  }

  lemma FirstAtMeans(h: string, i: nat, n: nat)
    ensures FirstAt(h, 0, i, n) <==> FirstLengthLine(h, i, n)
  {
    LengthAtMeans(h, i, n);
    if FirstAt(h, 0, i, n) {
      forall j: nat, m: nat | j < i ensures !LengthLine(h, j, m) { LengthAtMeans(h, j, m); }
    }
    if FirstLengthLine(h, i, n) {
      forall j: nat | j < i ensures LengthAt(h, j).None? {
        if LengthAt(h, j).Some? { LengthAtMeans(h, j, LengthAt(h, j).value); }
      }
    }
  }

  /** Main result: the length of a header is that of its first length field, on whichever line it stands. */
  lemma FirstLengthMeans(h: string, n: nat)
    ensures FirstLength(h, 0) == Some(n) <==> exists i: nat :: FirstLengthLine(h, i, n)
  {
    if FirstLength(h, 0) == Some(n) {
      var i := FoundFirst(h, 0);
      FirstAtMeans(h, i, n);
    }
    if i: nat :| FirstLengthLine(h, i, n) {
      FirstAtMeans(h, i, n);
      FirstIsFound(h, 0, i, n);
    }
  }

  // ---------- what comes first in a buffer ----------

  ghost predicate BlankLineAt(b: seq<Byte>, k: nat) { k + 4 <= |b| && b[k..k + 4] == [13, 10, 13, 10] }

  ghost predicate FirstBlankLine(b: seq<Byte>, k: nat) {
    BlankLineAt(b, k) && forall j: nat :: j < k ==> !BlankLineAt(b, j)
  }

  /** The bytes before a position as ASCII text, the high bit dropped. */
  ghost predicate HeaderText(h: string, b: seq<Byte>, k: nat) {
    k <= |b| && |h| == k && forall j :: 0 <= j < k ==> h[j] as int == b[j] % 128
  }

  lemma SeparatorMeans(b: seq<Byte>, k: nat)
    ensures SeparatorAt(b, k) <==> BlankLineAt(b, k)
  {
    if k + 4 <= |b| {
      var s := b[k..k + 4];
      assert s[0] == b[k] && s[1] == b[k + 1] && s[2] == b[k + 2] && s[3] == b[k + 3];
      assert s == [s[0], s[1], s[2], s[3]];
    }
  }

  lemma BlankLineFound(b: seq<Byte>)
    ensures FindSeparator(b, 0).None? <==> forall k: nat :: !BlankLineAt(b, k)
    ensures FindSeparator(b, 0).Some? ==> FirstBlankLine(b, FindSeparator(b, 0).value)
  {
    forall k: nat ensures SeparatorAt(b, k) <==> BlankLineAt(b, k) { SeparatorMeans(b, k); }
  }

  lemma OneFirst(b: seq<Byte>, k: nat)
    requires FirstBlankLine(b, k)
    ensures FindSeparator(b, 0) == Some(k)
  {
    BlankLineFound(b);
  }

  lemma HeaderIs(h: string, b: seq<Byte>, k: nat)
    requires HeaderText(h, b, k)
    ensures Ascii(b[..k]) == h
  {
  }

  /** Main result, first part: until a blank line arrives nothing is read. */
  lemma WithoutBlankLine<M>(b: seq<Byte>, decode: seq<Byte> -> Option<M>)
    requires forall k: nat :: !BlankLineAt(b, k)
    ensures HeadOf(b, decode).Incomplete?
  {
    BlankLineFound(b);
  }

  /** Second part: a header without a length field is an error that leaves the buffer as it is. */
  lemma WithoutLength<M>(b: seq<Byte>, k: nat, h: string, decode: seq<Byte> -> Option<M>)
    requires FirstBlankLine(b, k) && HeaderText(h, b, k) && forall i: nat, n: nat :: !LengthLine(h, i, n)
    ensures HeadOf(b, decode) == Broken(MissingLength, 0)
  {
    OneFirst(b, k);
    HeaderIs(h, b, k);
    if FirstLength(h, 0).Some? {
      FirstLengthMeans(h, FirstLength(h, 0).value);
    }
  }

  /** Third part: with one, the payload is awaited, refused before it comes, dropped, or dispatched. */
  lemma WithLength<M>(b: seq<Byte>, k: nat, h: string, i: nat, n: nat, decode: seq<Byte> -> Option<M>)
    requires FirstBlankLine(b, k) && HeaderText(h, b, k) && FirstLengthLine(h, i, n)
    ensures var head, end := HeadOf(b, decode), k + 4 + n;
            if n > 4_194_304 then head == Broken(MessageTooLarge, 0)
            else if |b| < end then head.Incomplete?
            else if decode(b[k + 4..end]).None? then head == Broken(BadPayload, end)
            else head == Message(decode(b[k + 4..end]).value, end)
  {
    OneFirst(b, k);
    HeaderIs(h, b, k);
    FirstLengthMeans(h, n);
  }
}
