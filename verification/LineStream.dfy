/** Splitting a byte stream into bounded lines (src/archive-import.js:409-436). */
module LineStream {
  import opened Common

  type Byte = b: int | 0 <= b < 256

  const NEWLINE: Byte := 10
  const RETURN: Byte := 13

  // ---------- what the lines are ----------

  /** Position of the first newline. */
  function Newline(b: seq<Byte>): (r: Option<nat>)
    ensures r.Some? ==> r.value < |b| && b[r.value] == NEWLINE && NEWLINE !in b[..r.value]
    ensures r.None? ==> NEWLINE !in b
  {
    if b == [] then None
    else if b[0] == NEWLINE then Some(0)
    else
      var later := Newline(b[1..]);
      assert b == [b[0]] + b[1..];
      if later.None? then None else
        assert b[..later.value + 1] == [b[0]] + b[1..][..later.value];
        Some(later.value + 1)
  }

  /** The lines of a file; text after the last newline is a line only when there is some. */
  function Lines(b: seq<Byte>): seq<seq<Byte>> {
    if b == [] then []
    else
      var k := Newline(b);
      if k.None? then [b] else [b[..k.value]] + Lines(b[k.value + 1..])
  }

  /** Every line with its newline. */
  function Terminated(lines: seq<seq<Byte>>): seq<Byte> {
    if lines == [] then [] else lines[0] + [NEWLINE] + Terminated(lines[1..])
  }

  lemma TerminatedCons(line: seq<Byte>, lines: seq<seq<Byte>>)
    ensures Terminated([line] + lines) == line + [NEWLINE] + Terminated(lines)
  {
    assert ([line] + lines)[1..] == lines;
  }

  /** A file, with a newline added when its last line lacks one. */
  function Completed(b: seq<Byte>): seq<Byte> { if b == [] || b[|b| - 1] == NEWLINE then b else b + [NEWLINE] }

  lemma CompletedAfter(line: seq<Byte>, rest: seq<Byte>)
    ensures Completed(line + [NEWLINE] + rest) == line + [NEWLINE] + Completed(rest)
  {
    var b := line + [NEWLINE] + rest;
    if rest != [] {
      assert b[|b| - 1] == rest[|rest| - 1];
      assert b + [NEWLINE] == line + [NEWLINE] + (rest + [NEWLINE]);
    }
  }

  lemma CutAt(b: seq<Byte>, k: nat)
    requires k < |b| && b[k] == NEWLINE
    ensures b == b[..k] + [NEWLINE] + b[k + 1..]
  {
  }

  /** No line holds a newline, and together they are the file, up to a missing last newline. */
  lemma {:induction false} LinesAreTheFile(b: seq<Byte>)
    ensures forall i :: 0 <= i < |Lines(b)| ==> NEWLINE !in Lines(b)[i]
    ensures Terminated(Lines(b)) == Completed(b)
    decreases |b|
  {
    if b != [] {
      var k := Newline(b);
      if k.None? {
        assert b[|b| - 1] in b;
        TerminatedCons(b, []);
        assert [b] + [] == [b];
      } else {
        var rest := b[k.value + 1..];
        LinesAreTheFile(rest);
        CutAt(b, k.value);
        TerminatedCons(b[..k.value], Lines(rest));
        CompletedAfter(b[..k.value], rest);
      }
    }
  }

  // ---------- what is delivered ----------

  function StripReturn(line: seq<Byte>): seq<Byte> {
    if line != [] && line[|line| - 1] == RETURN then line[..|line| - 1] else line
  }

  datatype Delivery = Delivery(line: seq<Byte>, number: nat)

  datatype Outcome = Outcome(delivered: seq<Delivery>, tooLarge: bool)

  /** Lines in order, numbered, up to the first that is too large. */
  function Deliver(lines: seq<seq<Byte>>, number: nat, maximum: nat): Outcome {
    if lines == [] then Outcome([], false)
    else if |lines[0]| > maximum then Outcome([], true)
    else
      var later := Deliver(lines[1..], number + 1, maximum);
      later.(delivered := [Delivery(StripReturn(lines[0]), number)] + later.delivered)
  }

  /** A line without the carriage return that may end it. */
  ghost predicate Bare(bare: seq<Byte>, line: seq<Byte>) {
    line == bare + [13] || (line == bare && (line == [] || line[|line| - 1] != 13))
  }

  lemma DeliverCons(line: seq<Byte>, lines: seq<seq<Byte>>, number: nat, maximum: nat)
    ensures Deliver([line] + lines, number, maximum)
         == if |line| > maximum then Outcome([], true)
            else After([Delivery(StripReturn(line), number)], Deliver(lines, number + 1, maximum))
  {
    assert ([line] + lines)[1..] == lines;
  }

  lemma AfterTwice(a: seq<Delivery>, b: seq<Delivery>, r: Outcome)
    ensures After(a, After(b, r)) == After(a + b, r)
  {
    assert a + (b + r.delivered) == a + b + r.delivered;
  }

  lemma StrippedIsBare(line: seq<Byte>)
    ensures Bare(StripReturn(line), line)
  {
    if line != [] { assert line == line[..|line| - 1] + [line[|line| - 1]]; }
  }

  /** Main result: the longest leading run of lines within the limit, and an error iff some line exceeds it. */
  lemma {:induction false} DeliversLongestRun(lines: seq<seq<Byte>>, number: nat, maximum: nat)
    ensures var r := Deliver(lines, number, maximum);
            var n := |r.delivered|;
            && n <= |lines|
            && (forall i :: 0 <= i < n ==>
                  |lines[i]| <= maximum && Bare(r.delivered[i].line, lines[i]) && r.delivered[i].number == number + i)
            && (r.tooLarge <==> n < |lines|)
            && (n < |lines| ==> |lines[n]| > maximum)
            && (r.tooLarge <==> exists i :: 0 <= i < |lines| && |lines[i]| > maximum)
  {
    if lines != [] && |lines[0]| <= maximum {
      DeliversLongestRun(lines[1..], number + 1, maximum);
      StrippedIsBare(lines[0]);
      assert forall i :: 0 < i < |lines| ==> lines[i] == lines[1..][i - 1];
    }
  }

  // ---------- the reader ----------

  function After(delivered: seq<Delivery>, r: Outcome): Outcome { r.(delivered := delivered + r.delivered) }

  /** What is still to come once `count` lines are delivered. */
  function Remaining(pending: seq<Byte>, later: seq<Byte>, count: nat, maximum: nat): Outcome {
    Deliver(Lines(pending + later), count + 1, maximum)
  }

  lemma FirstLine(pending: seq<Byte>, later: seq<Byte>)
    requires Newline(pending).Some?
    ensures var k := Newline(pending).value;
            Lines(pending + later) == [pending[..k]] + Lines(pending[k + 1..] + later)
  {
    var k := Newline(pending).value;
    var b := pending + later;
    assert b[k] == NEWLINE;
    assert b[..k] == pending[..k];
    NewlineIs(b, k);
    assert b[k + 1..] == pending[k + 1..] + later;
  }

  lemma NewlineIs(b: seq<Byte>, k: nat)
    requires k < |b| && b[k] == NEWLINE && NEWLINE !in b[..k]
    ensures Newline(b) == Some(k)
  {
    assert b[k] in b;
    assert forall i, j :: 0 <= i < j <= |b| ==> b[i] in b[..j];
  }

  /** A prefix too long to be a line condemns the first line, however it goes on. */
  lemma TooLongAlready(pending: seq<Byte>, later: seq<Byte>, count: nat, maximum: nat)
    requires |pending| > maximum && NEWLINE !in pending
    ensures Remaining(pending, later, count, maximum) == Outcome([], true)
  {
    var b := pending + later;
    assert forall i :: 0 <= i < |pending| ==> b[i] == pending[i] && pending[i] in pending;
  }

  lemma OneLine(delivered: seq<Delivery>, pending: seq<Byte>, later: seq<Byte>, count: nat, maximum: nat)
    requires Newline(pending).Some?
    ensures var k := Newline(pending).value;
            var now := After(delivered, Remaining(pending, later, count, maximum));
            && (k > maximum ==> now == Outcome(delivered, true))
            && (k <= maximum ==>
                  now == After(delivered + [Delivery(StripReturn(pending[..k]), count + 1)], Remaining(pending[k + 1..], later, count + 1, maximum)))
  {
    FirstLine(pending, later);
    var k := Newline(pending).value;
    DeliverCons(pending[..k], Lines(pending[k + 1..] + later), count + 1, maximum);
    AfterTwice(delivered, [Delivery(StripReturn(pending[..k]), count + 1)], Remaining(pending[k + 1..], later, count + 1, maximum));
    assert delivered + [] == delivered;
  }

  /** Every whole line that is buffered; what is left holds no newline. */
  method Drain(pending: seq<Byte>, delivered: seq<Delivery>, maximum: nat, ghost later: seq<Byte>)
    returns (rest: seq<Byte>, more: seq<Delivery>, tooLarge: bool)
    ensures tooLarge ==> After(delivered, Remaining(pending, later, |delivered|, maximum)) == Outcome(more, true)
    ensures !tooLarge ==> NEWLINE !in rest
    ensures !tooLarge ==> After(delivered, Remaining(pending, later, |delivered|, maximum)) == After(more, Remaining(rest, later, |more|, maximum))
  {
    rest, more, tooLarge := pending, delivered, false;
    ghost var goal := After(delivered, Remaining(pending, later, |delivered|, maximum));
    var newline := Newline(rest);
    while newline.Some?
      invariant newline == Newline(rest)
      invariant goal == After(more, Remaining(rest, later, |more|, maximum))
      decreases |rest|
    {
      OneLine(more, rest, later, |more|, maximum);
      var line := rest[..newline.value];
      rest := rest[newline.value + 1..];
      if |line| > maximum {
        return rest, more, true;
      }
      more := more + [Delivery(StripReturn(line), |more| + 1)];
      newline := Newline(rest);
    }
  }

  /** Main result: however the stream is cut, the outcome is that of the whole file. */
  method StreamLines(chunks: seq<seq<Byte>>, maximum: nat) returns (r: Outcome)
    ensures r == Deliver(Lines(Flatten(chunks)), 1, maximum)
  {
    var pending: seq<Byte>, delivered: seq<Delivery> := [], [];
    ghost var goal := Deliver(Lines(Flatten(chunks)), 1, maximum);
    assert [] + Flatten(chunks) == Flatten(chunks);
    assert [] + goal.delivered == goal.delivered;
    for i := 0 to |chunks|
      invariant NEWLINE !in pending
      invariant goal == After(delivered, Remaining(pending, Flatten(chunks[i..]), |delivered|, maximum))
    {
      ghost var later := Flatten(chunks[i + 1..]);
      assert chunks[i..][1..] == chunks[i + 1..];
      assert pending + Flatten(chunks[i..]) == pending + chunks[i] + later;
      pending := pending + chunks[i];
      if |pending| > maximum && Newline(pending).None? {
        TooLongAlready(pending, later, |delivered|, maximum);
        assert delivered + [] == delivered;
        return Outcome(delivered, true);
      }
      var tooLarge;
      pending, delivered, tooLarge := Drain(pending, delivered, maximum, later);
      if tooLarge {
        return Outcome(delivered, true);
      }
    }
    LastLine(delivered, pending, maximum);
    assert pending + Flatten(chunks[|chunks|..]) == pending;
    if |pending| > 0 {
      if |pending| > maximum {
        return Outcome(delivered, true);
      }
      delivered := delivered + [Delivery(StripReturn(pending), |delivered| + 1)];
    }
    return Outcome(delivered, false);
  }

  lemma LastLine(delivered: seq<Delivery>, pending: seq<Byte>, maximum: nat)
    requires NEWLINE !in pending
    ensures After(delivered, Deliver(Lines(pending), |delivered| + 1, maximum))
         == if pending == [] then Outcome(delivered, false)
            else if |pending| > maximum then Outcome(delivered, true)
            else Outcome(delivered + [Delivery(StripReturn(pending), |delivered| + 1)], false)
  {
    var k := Newline(pending);
    if pending == [] {
      assert delivered + [] == delivered;
    } else {
      assert k.None?;
      assert Lines(pending)[1..] == [];
      assert delivered + [] == delivered;
    }
  }
}
