/** Ordering by character code, and sorting lists of distinct strings by it. */
module StringOrder {
  import opened Common

  predicate Less(a: string, b: string) {
    if a == [] then b != []
    else b != [] && (a[0] < b[0] || (a[0] == b[0] && Less(a[1..], b[1..])))
  }

  lemma {:induction false} LessIsTotal(a: string, b: string)
    ensures a == b || Less(a, b) || Less(b, a)
    ensures !(Less(a, b) && Less(b, a)) && !Less(a, a)
  {
    if a != [] && b != [] && a[0] == b[0] {
      LessIsTotal(a[1..], b[1..]);
      assert a == [a[0]] + a[1..] && b == [b[0]] + b[1..];
    }
    if a != [] { LessIsTotal(a[1..], a[1..]); }
  }

  lemma {:induction false} LessIsTransitive(a: string, b: string, c: string)
    requires Less(a, b) && Less(b, c)
    ensures Less(a, c)
  {
    if a != [] && a[0] == b[0] && b[0] == c[0] {
      LessIsTransitive(a[1..], b[1..], c[1..]);
    }
  }

  /** Ascending with no repetition. */
  ghost predicate StrictlyAscending(s: seq<string>) {
    forall i, j :: 0 <= i < j < |s| ==> Less(s[i], s[j])
  }

  function InsertInto(s: seq<string>, x: string): seq<string> {
    if s == [] then [x]
    else if Less(s[|s| - 1], x) then s + [x]
    else InsertInto(s[..|s| - 1], x) + [s[|s| - 1]]
  }

  function Sort(s: seq<string>): seq<string> {
    if s == [] then [] else InsertInto(Sort(s[..|s| - 1]), s[|s| - 1])
  }

  lemma {:induction false} InsertIntoMembers(s: seq<string>, x: string)
    ensures multiset(InsertInto(s, x)) == multiset(s) + multiset{x}
    ensures |InsertInto(s, x)| == |s| + 1
    ensures forall y :: y in InsertInto(s, x) <==> y in s || y == x
  {
    if s != [] {
      assert s == s[..|s| - 1] + [s[|s| - 1]];
      InsertIntoMembers(s[..|s| - 1], x);
    }
  }

  lemma AscendingSnoc(s: seq<string>, x: string)
    requires StrictlyAscending(s) && forall y :: y in s ==> Less(y, x)
    ensures StrictlyAscending(s + [x])
  {
  }

  lemma LastIsGreatest(s: seq<string>, x: string)
    requires StrictlyAscending(s) && x in s
    ensures x == s[|s| - 1] || Less(x, s[|s| - 1])
  {
  }

  lemma {:induction false} InsertIntoAscends(s: seq<string>, x: string)
    requires StrictlyAscending(s) && x !in s
    ensures StrictlyAscending(InsertInto(s, x))
  {
    if s != [] {
      var front, last := s[..|s| - 1], s[|s| - 1];
      assert s == front + [last];
      if Less(last, x) {
        forall y | y in s ensures Less(y, x) {
          LastIsGreatest(s, y);
          if y != last { LessIsTransitive(y, last, x); }
        }
        AscendingSnoc(s, x);
      } else {
        LessIsTotal(last, x);
        InsertIntoAscends(front, x);
        InsertIntoMembers(front, x);
        AscendingSnoc(InsertInto(front, x), last);
      }
    }
  }

  lemma {:induction false} SortFacts(s: seq<string>)
    requires Distinct(s)
    ensures StrictlyAscending(Sort(s)) && multiset(Sort(s)) == multiset(s) && |Sort(s)| == |s|
    ensures forall y :: y in Sort(s) <==> y in s
  {
    if s != [] {
      var front, last := s[..|s| - 1], s[|s| - 1];
      assert s == front + [last];
      SortFacts(front);
      InsertIntoAscends(Sort(front), last);
      InsertIntoMembers(Sort(front), last);
    }
  }

  lemma {:induction false} SameMembers(a: seq<string>, b: seq<string>)
    requires StrictlyAscending(a) && StrictlyAscending(b) && forall x :: x in a <==> x in b
    ensures a == b
  {
    assert (a != [] ==> a[0] in a) && (b != [] ==> b[0] in b);
    if a != [] && b != [] {
      var x, y := a[|a| - 1], b[|b| - 1];
      assert x in a && y in b;
      LastIsGreatest(a, y);
      LastIsGreatest(b, x);
      LessIsTotal(x, y);
      assert x == y;
      var c, d := a[..|a| - 1], b[..|b| - 1];
      assert a == c + [x] && b == d + [x];
      LessIsTotal(x, x);
      assert x !in c && x !in d;
      forall z ensures z in c <==> z in d { assert z in a <==> z in b; }
      SameMembers(c, d);
    }
  }
}
