/**
 * The inverted index of src/indexer.js: term frequencies, postings and document frequencies.
 *
 * Splitting a text into lexemes is not modelled: a document carries its lexemes, stop words removed.
 */
module RetrievalIndex {
  import opened Common
  import opened StringOrder

  datatype Document = Document(id: string, lexemes: seq<string>)

  ghost predicate UniqueIds(documents: seq<Document>) {
    forall i, j :: 0 <= i < j < |documents| ==> documents[i].id != documents[j].id
  }

  // ---------- the frequency table ----------

  ghost predicate IsFrequencyTable(table: map<string, nat>, values: seq<string>) {
    && (forall v :: v in table <==> v in values)
    && (forall v :: v in table ==> table[v] == multiset(values)[v])
  }

  method FrequencyTable(values: seq<string>) returns (table: map<string, nat>)
    ensures IsFrequencyTable(table, values)
  {
    table := map[];
    for i := 0 to |values|
      invariant IsFrequencyTable(table, values[..i])
    {
      assert values[..i + 1] == values[..i] + [values[i]];
      table := table[values[i] := (if values[i] in table then table[values[i]] else 0) + 1];
    }
    assert values[..|values|] == values;
  }

  function SumOf(table: map<string, nat>, terms: seq<string>): nat {
    if terms == [] then 0
    else SumOf(table, terms[..|terms| - 1]) + (if terms[|terms| - 1] in table then table[terms[|terms| - 1]] else 0)
  }

  function CountIn(values: seq<string>, terms: seq<string>): nat {
    if terms == [] then 0 else CountIn(values, terms[..|terms| - 1]) + multiset(values)[terms[|terms| - 1]]
  }

  lemma {:induction false} CountGrows(values: seq<string>, x: string, terms: seq<string>)
    requires Distinct(terms)
    ensures CountIn(values + [x], terms) == CountIn(values, terms) + if x in terms then 1 else 0
  {
    if terms != [] {
      var front, last := terms[..|terms| - 1], terms[|terms| - 1];
      CountGrows(values, x, front);
      assert terms == front + [last] && last !in front;
    }
  }

  lemma {:induction false} NothingCounted(terms: seq<string>)
    ensures CountIn([], terms) == 0
  {
    if terms != [] { NothingCounted(terms[..|terms| - 1]); }
  }

  lemma {:induction false} CountsAddUp(values: seq<string>, terms: seq<string>)
    requires Distinct(terms) && forall v :: v in values ==> v in terms
    ensures CountIn(values, terms) == |values|
  {
    if values == [] {
      NothingCounted(terms);
    } else {
      var front, last := values[..|values| - 1], values[|values| - 1];
      assert values == front + [last];
      CountsAddUp(front, terms);
      CountGrows(front, last, terms);
    }
  }

  lemma {:induction false} SumIsCount(table: map<string, nat>, values: seq<string>, terms: seq<string>)
    requires IsFrequencyTable(table, values)
    ensures SumOf(table, terms) == CountIn(values, terms)
  {
    if terms != [] { SumIsCount(table, values, terms[..|terms| - 1]); }
  }

  // ---------- terms ----------

  function Dedupe(values: seq<string>): seq<string> {
    if values == [] then []
    else
      var before := Dedupe(values[..|values| - 1]);
      if values[|values| - 1] in before then before else before + [values[|values| - 1]]
  }

  lemma {:induction false} DedupeFacts(values: seq<string>)
    ensures Distinct(Dedupe(values)) && forall v :: v in Dedupe(values) <==> v in values
  {
    if values != [] {
      var front, last := values[..|values| - 1], values[|values| - 1];
      assert values == front + [last];
      DedupeFacts(front);
    }
  }

  function TermsOf(d: Document): seq<string> { Sort(Dedupe(d.lexemes)) }

  lemma TermsFacts(d: Document)
    ensures StrictlyAscending(TermsOf(d)) && Distinct(TermsOf(d)) && forall t :: t in TermsOf(d) <==> t in d.lexemes
  {
    DedupeFacts(d.lexemes);
    SortFacts(Dedupe(d.lexemes));
    forall i, j | 0 <= i < j < |TermsOf(d)| ensures TermsOf(d)[i] != TermsOf(d)[j] {
      LessIsTotal(TermsOf(d)[i], TermsOf(d)[j]);
    }
  }

  /** Main result: the frequencies of a document's terms add up to its length. */
  lemma FrequenciesSumToLength(d: Document, table: map<string, nat>)
    requires IsFrequencyTable(table, d.lexemes)
    ensures SumOf(table, TermsOf(d)) == |d.lexemes|
  {
    TermsFacts(d);
    SumIsCount(table, d.lexemes, TermsOf(d));
    CountsAddUp(d.lexemes, TermsOf(d));
  }

  // ---------- postings ----------

  /** The ids of the documents that contain the term, in document order. */
  function IdsWith(documents: seq<Document>, term: string): seq<string> {
    if documents == [] then []
    else
      var last := documents[|documents| - 1];
      IdsWith(documents[..|documents| - 1], term) + if term in last.lexemes then [last.id] else []
  }

  ghost predicate HasId(documents: seq<Document>, id: string) {
    exists i :: 0 <= i < |documents| && documents[i].id == id
  }

  lemma {:induction false} IdsWithFacts(documents: seq<Document>, term: string)
    requires UniqueIds(documents)
    ensures Distinct(IdsWith(documents, term))
    ensures forall i :: 0 <= i < |documents| ==> (documents[i].id in IdsWith(documents, term) <==> term in documents[i].lexemes)
    ensures forall id :: id in IdsWith(documents, term) ==> HasId(documents, id)
  {
    if documents != [] {
      var front, last := documents[..|documents| - 1], documents[|documents| - 1];
      IdsWithFacts(front, term);
      assert forall i :: 0 <= i < |front| ==> front[i] == documents[i];
      assert !HasId(front, last.id);
      assert last.id !in IdsWith(front, term);
      forall id | id in IdsWith(front, term) ensures HasId(documents, id) {
        var i :| 0 <= i < |front| && front[i].id == id;
        assert documents[i].id == id;
      }
      forall i | 0 <= i < |documents| ensures documents[i].id in IdsWith(documents, term) <==> term in documents[i].lexemes {
        if i < |front| { assert front[i] == documents[i]; }
      }
    }
  }

  datatype Index = Index(postings: map<string, seq<string>>, documentFrequency: map<string, nat>)

  ghost predicate Mentioned(documents: seq<Document>, term: string) {
    exists i :: 0 <= i < |documents| && term in documents[i].lexemes
  }

  ghost predicate HasDocument(documents: seq<Document>, id: string, term: string) {
    exists i :: 0 <= i < |documents| && documents[i].id == id && term in documents[i].lexemes
  }

  /** What the index promises, stated on the documents alone. */
  ghost predicate IsIndexOf(index: Index, documents: seq<Document>) {
    && index.postings.Keys == index.documentFrequency.Keys
    && (forall t :: t in index.postings <==> Mentioned(documents, t))
    && (forall t :: t in index.postings ==>
          && StrictlyAscending(index.postings[t])
          && (forall id :: id in index.postings[t] <==> HasDocument(documents, id, t))
          && index.documentFrequency[t] == |index.postings[t]|)
  }

  /** Before the lists are sorted: every list is in document order. */
  ghost predicate IsListing(index: Index, documents: seq<Document>) {
    && index.postings.Keys == index.documentFrequency.Keys
    && (forall t :: t in index.postings <==> IdsWith(documents, t) != [])
    && (forall t :: t in index.postings ==>
          index.postings[t] == IdsWith(documents, t) && index.documentFrequency[t] == |index.postings[t]|)
  }

  /** The state while the terms of one document are entered: the first `entered` already are. */
  ghost predicate IsPartial(index: Index, before: seq<Document>, id: string, entered: seq<string>) {
    && index.postings.Keys == index.documentFrequency.Keys
    && (forall t :: t in index.postings <==> IdsWith(before, t) != [] || t in entered)
    && (forall t :: t in index.postings ==>
          && index.postings[t] == IdsWith(before, t) + (if t in entered then [id] else [])
          && index.documentFrequency[t] == |index.postings[t]|)
  }

  function Enter(index: Index, id: string, term: string): Index {
    var ids := if term in index.postings then index.postings[term] else [];
    var count := if term in index.documentFrequency then index.documentFrequency[term] else 0;
    Index(index.postings[term := ids + [id]], index.documentFrequency[term := count + 1])
  }

  lemma EnterStep(index: Index, before: seq<Document>, id: string, entered: seq<string>, term: string)
    requires IsPartial(index, before, id, entered) && term !in entered
    ensures IsPartial(Enter(index, id, term), before, id, entered + [term])
  {
  }

  lemma NothingEntered(index: Index, before: seq<Document>, id: string)
    requires IsListing(index, before)
    ensures IsPartial(index, before, id, [])
  {
  }

  lemma IdsWithSnoc(documents: seq<Document>, k: nat, term: string)
    requires k < |documents|
    ensures IdsWith(documents[..k + 1], term)
         == IdsWith(documents[..k], term) + if term in TermsOf(documents[k]) then [documents[k].id] else []
  {
    TermsFacts(documents[k]);
    assert documents[..k + 1][..k] == documents[..k];
  }

  lemma ListedAfter(index: Index, before: seq<Document>, after: seq<Document>, id: string, terms: seq<string>)
    requires IsPartial(index, before, id, terms)
    requires forall t :: IdsWith(after, t) == IdsWith(before, t) + if t in terms then [id] else []
    ensures IsListing(index, after)
  {
  }

  lemma AllEntered(index: Index, documents: seq<Document>, k: nat)
    requires k < |documents| && IsPartial(index, documents[..k], documents[k].id, TermsOf(documents[k]))
    ensures IsListing(index, documents[..k + 1])
  {
    forall t ensures IdsWith(documents[..k + 1], t) == IdsWith(documents[..k], t) + if t in TermsOf(documents[k]) then [documents[k].id] else [] {
      IdsWithSnoc(documents, k, t);
    }
    ListedAfter(index, documents[..k], documents[..k + 1], documents[k].id, TermsOf(documents[k]));
  }

  method EnterTerms(index: Index, ghost before: seq<Document>, id: string, terms: seq<string>) returns (next: Index)
    requires Distinct(terms) && IsPartial(index, before, id, [])
    ensures IsPartial(next, before, id, terms)
  {
    next := index;
    assert terms[..0] == [];
    for j := 0 to |terms|
      invariant IsPartial(next, before, id, terms[..j])
    {
      assert terms[..j + 1] == terms[..j] + [terms[j]];
      EnterStep(next, before, id, terms[..j], terms[j]);
      next := Enter(next, id, terms[j]);
    }
    assert terms[..|terms|] == terms;
  }

  method EnterDocument(index: Index, documents: seq<Document>, k: nat) returns (next: Index)
    requires k < |documents| && IsListing(index, documents[..k])
    ensures IsListing(next, documents[..k + 1])
  {
    TermsFacts(documents[k]);
    NothingEntered(index, documents[..k], documents[k].id);
    next := EnterTerms(index, documents[..k], documents[k].id, TermsOf(documents[k]));
    AllEntered(next, documents, k);
  }

  ghost predicate PartlySorted(postings: map<string, seq<string>>, listing: map<string, seq<string>>, left: set<string>)
  {
    && postings.Keys == listing.Keys
    && (forall t :: t in listing ==> postings[t] == if t in left then listing[t] else Sort(listing[t]))
  }

  method SortPostings(listing: map<string, seq<string>>) returns (postings: map<string, seq<string>>)
    ensures PartlySorted(postings, listing, {})
  {
    postings := listing;
    var left := listing.Keys;
    while left != {}
      invariant left <= listing.Keys && PartlySorted(postings, listing, left)
      decreases |left|
    {
      var term :| term in left;
      postings, left := postings[term := Sort(postings[term])], left - {term};
    }
  }

  lemma MentionedHasIds(documents: seq<Document>, term: string)
    requires UniqueIds(documents)
    ensures IdsWith(documents, term) != [] <==> Mentioned(documents, term)
  {
    IdsWithFacts(documents, term);
    if IdsWith(documents, term) != [] {
      var id := IdsWith(documents, term)[0];
      assert HasId(documents, id);
      var i :| 0 <= i < |documents| && documents[i].id == id;
      assert term in documents[i].lexemes;
    }
  }

  lemma SortedListIsPosting(documents: seq<Document>, term: string)
    requires UniqueIds(documents)
    ensures var ids := Sort(IdsWith(documents, term));
            && StrictlyAscending(ids) && |ids| == |IdsWith(documents, term)|
            && (forall id :: id in ids <==> HasDocument(documents, id, term))
  {
    IdsWithFacts(documents, term);
    SortFacts(IdsWith(documents, term));
    forall id | id in IdsWith(documents, term) ensures HasDocument(documents, id, term) {
      assert HasId(documents, id);
      var i :| 0 <= i < |documents| && documents[i].id == id;
      assert term in documents[i].lexemes;
    }
  }

  lemma IndexIsComplete(listed: Index, postings: map<string, seq<string>>, documents: seq<Document>)
    requires UniqueIds(documents) && IsListing(listed, documents) && PartlySorted(postings, listed.postings, {})
    ensures IsIndexOf(Index(postings, listed.documentFrequency), documents)
  {
    forall t ensures t in postings <==> Mentioned(documents, t) { MentionedHasIds(documents, t); }
    forall t | t in postings
      ensures StrictlyAscending(postings[t]) && listed.documentFrequency[t] == |postings[t]|
      ensures forall id :: id in postings[t] <==> HasDocument(documents, id, t)
    {
      SortedListIsPosting(documents, t);
    }
  }

  /** Main result: the built index agrees with the documents. */
  method BuildIndex(documents: seq<Document>) returns (index: Index)
    requires UniqueIds(documents)
    ensures IsIndexOf(index, documents)
  {
    index := Index(map[], map[]);
    for k := 0 to |documents|
      invariant IsListing(index, documents[..k])
    {
      index := EnterDocument(index, documents, k);
    }
    assert documents[..|documents|] == documents;
    var postings := SortPostings(index.postings);
    IndexIsComplete(index, postings, documents);
    index := Index(postings, index.documentFrequency);
  }

  /** The contract leaves no freedom: two indexes of the same documents are equal. */
  lemma IndexIsUnique(a: Index, b: Index, documents: seq<Document>)
    requires IsIndexOf(a, documents) && IsIndexOf(b, documents)
    ensures a == b
  {
    assert a.postings.Keys == b.postings.Keys;
    forall t | t in a.postings ensures a.postings[t] == b.postings[t] {
      SameMembers(a.postings[t], b.postings[t]);
    }
  }
}
