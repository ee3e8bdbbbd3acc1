/** What inline Markdown text is (src/markdown.js:1-17): one line, nothing active in it, and nothing lost but line ends. */
module MarkdownInline {
  import opened JsonText
  import opened PackMarkdown

  ghost predicate LineEnd(u: Unit) { u in [0x0a, 0x0d, 0x2028, 0x2029] }

  /** A control character other than tab and line ends. */
  ghost predicate IsControl(u: Unit) { (u < 0x20 && u !in [9, 10, 13]) || 0x7f <= u <= 0x9f }

  ghost predicate EndsLine(text: Text) { text != [] && LineEnd(text[|text| - 1]) }

  ghost predicate StartsLine(text: Text) { text != [] && LineEnd(text[0]) }

  // ---------- part by part ----------

  ghost predicate StartsPair(text: Text) { |text| > 1 && text[0] == RETURN && text[1] == NEWLINE }

  ghost function Unified(u: Unit): Unit { if u in [RETURN, 0x2028, 0x2029] then NEWLINE else u }

  lemma UnifiedStep(text: Text)
    requires text != []
    ensures UnifiedLines(text)
         == if StartsPair(text) then [NEWLINE] + UnifiedLines(text[2..]) else [Unified(text[0])] + UnifiedLines(text[1..])
  {
  }

  lemma PairStays(a: Text, b: Text)
    requires a != [] && (!EndsLine(a) || !StartsLine(b))
    ensures StartsPair(a + b) <==> StartsPair(a)
    ensures (a + b)[1..] == a[1..] + b && (|a| > 1 ==> (a + b)[2..] == a[2..] + b)
  {
    if |a| > 1 {
      assert (a + b)[1] == a[1];
    } else if b != [] {
      assert (a + b)[1] == b[0];
    }
  }

  lemma EndsLater(a: Text, k: nat)
    requires k <= |a|
    ensures EndsLine(a[k..]) ==> EndsLine(a)
  {
  }

  lemma Regroup(u: Unit, a: Text, b: Text)
    ensures [u] + (a + b) == [u] + a + b
  {
  }

  lemma {:induction false} UnifiedAppend(a: Text, b: Text)
    requires !EndsLine(a) || !StartsLine(b)
    ensures UnifiedLines(a + b) == UnifiedLines(a) + UnifiedLines(b)
  {
    if a == [] {
      assert a + b == b;
    } else {
      var k := if StartsPair(a) then 2 else 1;
      var u := if StartsPair(a) then NEWLINE else Unified(a[0]);
      PairStays(a, b);
      UnifiedStep(a);
      UnifiedStep(a + b);
      EndsLater(a, k);
      UnifiedAppend(a[k..], b);
      Regroup(u, UnifiedLines(a[k..]), UnifiedLines(b));
    }
  }

  /** After unifying, newlines stand where line ends stood. */
  lemma {:induction false} UnifiedEnds(text: Text)
    ensures var r := UnifiedLines(text);
            && (forall u :: u in r ==> u !in [0x0d, 0x2028, 0x2029])
            && (r == [] <==> text == [])
            && (text != [] ==> (r[0] == NEWLINE <==> StartsLine(text)) && (r[|r| - 1] == NEWLINE <==> EndsLine(text)))
  {
    if text != [] {
      var rest := if text[0] == RETURN && |text| > 1 && text[1] == NEWLINE then text[2..] else text[1..];
      UnifiedEnds(rest);
      assert rest != [] ==> rest[|rest| - 1] == text[|text| - 1];
    }
  }

  lemma {:induction false} VisibleAppend(a: Text, b: Text)
    ensures VisibleControls(a + b) == VisibleControls(a) + VisibleControls(b)
  {
    if a == [] {
      assert a + b == b;
    } else {
      assert (a + b)[1..] == a[1..] + b;
      VisibleAppend(a[1..], b);
    }
  }

  lemma {:induction false} VisibleEnds(text: Text)
    ensures var r := VisibleControls(text);
            && (forall u :: u in r ==> !UnsafeControl(u) && (u in [0x0d, 0x2028, 0x2029] ==> u in text))
            && (r == [] <==> text == [])
            && (text != [] ==> (r[0] == NEWLINE <==> text[0] == NEWLINE) && (r[|r| - 1] == NEWLINE <==> text[|text| - 1] == NEWLINE))
  {
    if text != [] {
      VisibleEnds(text[1..]);
      assert text == [text[0]] + text[1..];
    }
  }

  lemma {:induction false} OneLineAppend(a: Text, b: Text)
    requires a == [] || b == [] || a[|a| - 1] != NEWLINE || b[0] != NEWLINE
    ensures OneLine(a + b) == OneLine(a) + OneLine(b)
  {
    if a == [] {
      assert a + b == b;
    } else if b == [] {
      assert a + b == a;
    } else {
      assert (a + b)[1..] == a[1..] + b;
      OneLineAppend(a[1..], b);
    }
  }

  lemma {:induction false} OneLineKeeps(text: Text)
    ensures forall u :: u in OneLine(text) ==> u != NEWLINE && (u in text || u == SPACE)
  {
    if text != [] {
      OneLineKeeps(text[1..]);
      assert text == [text[0]] + text[1..];
    }
  }

  lemma {:induction false} EscapedAppend(a: Text, b: Text)
    ensures Escaped(a + b) == Escaped(a) + Escaped(b)
  {
    if a == [] {
      assert a + b == b;
    } else {
      assert (a + b)[1..] == a[1..] + b;
      EscapedAppend(a[1..], b);
    }
  }

  lemma UnifiedOnlyNewlines(text: Text)
    ensures forall u :: u in UnifiedLines(text) && LineEnd(u) ==> u == NEWLINE
  {
    UnifiedEnds(text);
  }

  /** Main result, first part: two texts can be printed apart unless a run of line ends is cut. */
  lemma InlineAppend(a: Text, b: Text)
    requires !EndsLine(a) || !StartsLine(b)
    ensures Inline(a + b) == Inline(a) + Inline(b)
  {
    var c, d := UnifiedLines(a), UnifiedLines(b);
    UnifiedAppend(a, b);
    UnifiedEnds(a);
    UnifiedEnds(b);
    VisibleAppend(c, d);
    VisibleEnds(c);
    VisibleEnds(d);
    OneLineAppend(VisibleControls(c), VisibleControls(d));
    EscapedAppend(OneLine(VisibleControls(c)), OneLine(VisibleControls(d)));
  }

  ghost predicate AllLineEnds(text: Text) { forall u :: u in text ==> LineEnd(u) }

  lemma {:induction false} UnifiedRun(text: Text)
    requires AllLineEnds(text)
    ensures forall u :: u in UnifiedLines(text) ==> u == NEWLINE
    ensures UnifiedLines(text) == [] <==> text == []
  {
    if text != [] {
      assert text[0] in text;
      UnifiedRun(if text[0] == RETURN && |text| > 1 && text[1] == NEWLINE then text[2..] else text[1..]);
    }
  }

  lemma {:induction false} NewlineRun(text: Text)
    requires text != [] && forall u :: u in text ==> u == NEWLINE
    ensures VisibleControls(text) == text && OneLine(text) == [SPACE]
  {
    assert text[0] in text;
    assert text == [text[0]] + text[1..];
    if |text| > 1 {
      assert forall u :: u in text[1..] ==> u in text;
      assert text[1] in text;
      NewlineRun(text[1..]);
    }
  }

  /** Second part: such a run is one space. */
  lemma LineEndsAreOneSpace(text: Text)
    requires text != [] && AllLineEnds(text)
    ensures Inline(text) == [0x20]
  {
    UnifiedRun(text);
    NewlineRun(UnifiedLines(text));
    EscapedOne(SPACE);
  }

  lemma EscapedOne(u: Unit)
    ensures Escaped([u]) == if Markup(u) then [BACKSLASH, u] else [u]
  {
    assert [u][1..] == [];
    assert Escaped([]) == [];
  }

  lemma OneUnit(u: Unit)
    requires !LineEnd(u)
    ensures UnifiedLines([u]) == [u] && OneLine([u]) == [u]
    ensures VisibleControls([u])
         == if UnsafeControl(u) then [BACKSLASH, 0x75, 0x30, 0x30, HexDigit(u / 16), HexDigit(u % 16)] else [u]
  {
    assert [u][1..] == [];
    assert UnifiedLines([]) == [] && OneLine([]) == [] && VisibleControls([]) == [];
  }

  /** Third part: any other unit is itself, with a backslash before it when it is markup. */
  lemma OtherUnits(u: Unit)
    requires !LineEnd(u) && !IsControl(u)
    ensures Inline([u]) == if u in [0x5c, 0x60, 0x2a, 0x5f, 0x7b, 0x7d, 0x5b, 0x5d, 0x28, 0x29, 0x3c, 0x3e, 0x23, 0x2b, 0x2e, 0x21, 0x7c, 0x2d]
                           then [0x5c, u] else [u]
  {
    OneUnit(u);
    EscapedOne(u);
  }

  // ---------- nothing is active ----------

  /** Read from the left, every markup character stands behind a backslash of its own. */
  ghost predicate Inert(text: Text) {
    || text == []
    || (text[0] == BACKSLASH && |text| > 1 && Markup(text[1]) && Inert(text[2..]))
    || (!Markup(text[0]) && Inert(text[1..]))
  }

  /** The text with those backslashes taken away. */
  ghost function Unescaped(text: Text): Text {
    if text == [] then []
    else if text[0] == BACKSLASH && |text| > 1 then [text[1]] + Unescaped(text[2..])
    else [text[0]] + Unescaped(text[1..])
  }

  lemma {:induction false} EscapedIsInert(text: Text)
    ensures Inert(Escaped(text)) && Unescaped(Escaped(text)) == text
    ensures forall u :: u in Escaped(text) ==> u in text || u == BACKSLASH
  {
    if text != [] {
      EscapedIsInert(text[1..]);
      var rest, all := Escaped(text[1..]), Escaped(text);
      assert text == [text[0]] + text[1..];
      if Markup(text[0]) {
        assert all[2..] == rest;
      } else {
        assert all[1..] == rest;
      }
    }
  }

  ghost predicate Clean(text: Text) { forall u :: u in text ==> !LineEnd(u) && !IsControl(u) }

  lemma ControlMeans(u: Unit)
    ensures IsControl(u) <==> UnsafeControl(u)
  {
  }

  lemma LineIsClean(text: Text)
    ensures Clean(OneLine(VisibleControls(UnifiedLines(text))))
  {
    var unified := UnifiedLines(text);
    var visible := VisibleControls(unified);
    UnifiedEnds(text);
    VisibleEnds(unified);
    OneLineKeeps(visible);
    forall u | u in OneLine(visible) ensures !LineEnd(u) && !IsControl(u) {
      ControlMeans(u);
      assert u in visible || u == SPACE;
    }
  }

  lemma EscapedIsClean(text: Text)
    requires Clean(text)
    ensures Clean(Escaped(text))
  {
    EscapedIsInert(text);
  }

  /** Main result, last part: the printed text is one line without control characters, and no markup in it is active. */
  lemma InlineIsInert(text: Text)
    ensures Inert(Inline(text)) && Clean(Inline(text))
  {
    LineIsClean(text);
    EscapedIsClean(OneLine(VisibleControls(UnifiedLines(text))));
    EscapedIsInert(OneLine(VisibleControls(UnifiedLines(text))));
  }

  lemma HexDigitIs(n: nat)
    requires n < 16
    ensures HexDigit(n) == HEX_DIGITS[n]
  {
  }

  /** A control character is shown by its code, behind an escaped backslash. */
  lemma ControlsAreShown(u: Unit)
    requires IsControl(u)
    ensures Unescaped(Inline([u])) == [0x5c, 0x75, 0x30, 0x30, HEX_DIGITS[u / 16], HEX_DIGITS[u % 16]]
  {
    HexDigitIs(u / 16);
    HexDigitIs(u % 16);
    OneUnit(u);
    var shown: Text := [BACKSLASH, 0x75, 0x30, 0x30, HexDigit(u / 16), HexDigit(u % 16)];
    PlainOneLine(shown);
    EscapedIsInert(shown);
  }

  lemma {:induction false} PlainOneLine(text: Text)
    requires forall u :: u in text ==> u != NEWLINE
    ensures OneLine(text) == text
  {
    if text != [] {
      assert text[0] in text && forall u :: u in text[1..] ==> u in text;
      PlainOneLine(text[1..]);
    }
  }
}
