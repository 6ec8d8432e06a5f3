/**
  An inverted index over documents, and what it answers: a function of the documents
  that are left, not of its history.
 */
module SearchIndex {
  import opened Wrappers
  import Sorting

  type Term = string
  type Id = nat
  type Docs = map<Id, seq<Term>>
  type Postings = map<Term, map<Id, nat>>

  /** How text becomes terms; the same terms are meant wherever the index says terms. */
  datatype Tokenizer = Tokenizer(terms: string -> seq<Term>)

  function Count(terms: seq<Term>, t: Term): (n: nat)
    ensures n > 0 <==> t in terms
  {
    if terms == [] then 0
    else
      var n := |terms| - 1;
      assert terms == terms[..n] + [terms[n]];
      Count(terms[..n], t) + if terms[n] == t then 1 else 0
  }

  // ---- the index of a set of documents, from scratch ------------------------------------------------

  /** Posting of one term: every document that holds it, with its exact multiplicity. */
  function PostingOf(docs: Docs, t: Term): map<Id, nat> {
    map id | id in docs && t in docs[id] :: Count(docs[id], t)
  }

  function AllTerms(docs: Docs): set<Term> {
    set id, k | id in docs && 0 <= k < |docs[id]| :: docs[id][k]
  }

  function PostingsOf(docs: Docs): Postings {
    map t | t in AllTerms(docs) :: PostingOf(docs, t)
  }

  function LengthsOf(docs: Docs): map<Id, nat> {
    map id | id in docs :: |docs[id]|
  }

  ghost function Total(lengths: map<Id, nat>): nat
    decreases |lengths.Keys|
  {
    if lengths == map[] then 0
    else
      var id :| id in lengths;
      lengths[id] + Total(lengths - {id})
  }

  /** The sum does not depend on where it starts. */
  lemma {:induction false} TotalSplits(lengths: map<Id, nat>, id: Id)
    requires id in lengths
    ensures Total(lengths) == lengths[id] + Total(lengths - {id})
    decreases |lengths.Keys|
  {
    var first :| first in lengths && Total(lengths) == lengths[first] + Total(lengths - {first});
    if first != id {
      TotalSplits(lengths - {first}, id);
      TotalSplits(lengths - {id}, first);
      assert lengths - {first} - {id} == lengths - {id} - {first};
    }
  }

  lemma {:induction false} InAllTerms(docs: Docs, t: Term)
    ensures t in AllTerms(docs) <==> exists id :: id in docs && t in docs[id]
  {
    if t in AllTerms(docs) {
      var id, k :| id in docs && 0 <= k < |docs[id]| && docs[id][k] == t;
    }
    if exists id :: id in docs && t in docs[id] {
      var id :| id in docs && t in docs[id];
      var k :| 0 <= k < |docs[id]| && docs[id][k] == t;
    }
  }

  /** Two postings tables with the same postings are the same. */
  lemma {:induction false} SamePostings(p: Postings, docs: Docs)
    requires forall t :: t in p <==> exists id :: id in docs && t in docs[id]
    requires forall t :: t in p ==> p[t] == PostingOf(docs, t)
    ensures p == PostingsOf(docs)
  {
    forall t
      ensures t in p <==> t in PostingsOf(docs)
    {
      InAllTerms(docs, t);
    }
  }

  // ---- keeping it up to date ----------------------------------------------------------------------------

  /** A document taken out of every posting; postings left empty are dropped. */
  function Retained(postings: Postings, id: Id): Postings {
    map t | t in postings && postings[t] - {id} != map[] :: postings[t] - {id}
  }

  function SaturatingSub(a: nat, b: nat): nat {
    if a >= b then a - b else 0
  }

  /** One more occurrence of a term in a document. */
  function Bumped(postings: Postings, t: Term, id: Id): Postings {
    var documents: map<Id, nat> := if t in postings then postings[t] else map[];
    var n := if id in documents then documents[id] else 0;
    postings[t := documents[id := n + 1]]
  }

  lemma {:induction false} RetainedIs(docs: Docs, id: Id)
    ensures Retained(PostingsOf(docs), id) == PostingsOf(docs - {id})
  {
    var p := Retained(PostingsOf(docs), id);
    forall t
      ensures t in p <==> exists d :: d in docs - {id} && t in (docs - {id})[d]
      ensures t in p ==> p[t] == PostingOf(docs - {id}, t)
    {
      InAllTerms(docs, t);
      assert PostingOf(docs, t) - {id} == PostingOf(docs - {id}, t);
      if exists d :: d in docs - {id} && t in (docs - {id})[d] {
        var d :| d in docs - {id} && t in (docs - {id})[d];
        assert d in docs && t in docs[d];
        assert d in PostingOf(docs, t) - {id};
      }
      if t in p {
        var d :| d in PostingOf(docs, t) - {id};
        assert d in docs - {id} && t in (docs - {id})[d];
      }
    }
    SamePostings(p, docs - {id});
  }

  lemma {:induction false} BumpedIs(docs: Docs, id: Id, terms: seq<Term>, t: Term)
    ensures Bumped(PostingsOf(docs[id := terms]), t, id) == PostingsOf(docs[id := terms + [t]])
  {
    hide PostingOf;
    var before, after := docs[id := terms], docs[id := terms + [t]];
    var p := Bumped(PostingsOf(before), t, id);
    forall u
      ensures u in p <==> exists d :: d in after && u in after[d]
      ensures u in p ==> p[u] == PostingOf(after, u)
    {
      InAllTerms(before, u);
      if u == t {
        assert id in after && t in after[id];
        PostingGrows(docs, id, terms, t);
        NoPosting(before, t);
      } else {
        OtherTerm(docs, id, terms, t, u);
      }
    }
    SamePostings(p, after);
  }

  lemma {:induction false} NoPosting(docs: Docs, t: Term)
    ensures !(exists id :: id in docs && t in docs[id]) ==> PostingOf(docs, t) == map[]
  {
  }

  lemma {:induction false} OtherTerm(docs: Docs, id: Id, terms: seq<Term>, t: Term, u: Term)
    requires u != t
    ensures var before, after := docs[id := terms], docs[id := terms + [t]];
            && PostingOf(after, u) == PostingOf(before, u)
            && ((exists d :: d in after && u in after[d]) <==> exists d :: d in before && u in before[d])
  {
    var before, after := docs[id := terms], docs[id := terms + [t]];
    assert (terms + [t])[..|terms|] == terms;
    assert forall d :: d in before ==> (u in before[d] <==> u in after[d]);
    if exists d :: d in after && u in after[d] {
      var d :| d in after && u in after[d];
      assert d in before && u in before[d];
    }
    if exists d :: d in before && u in before[d] {
      var d :| d in before && u in before[d];
      assert d in after && u in after[d];
    }
  }

  lemma {:induction false} PostingGrows(docs: Docs, id: Id, terms: seq<Term>, t: Term)
    ensures var before := PostingOf(docs[id := terms], t);
            PostingOf(docs[id := terms + [t]], t) == before[id := (if id in before then before[id] else 0) + 1]
  {
    hide Count;
    CountGrows(terms, t);
    var before, after := PostingOf(docs[id := terms], t), PostingOf(docs[id := terms + [t]], t);
    forall d
      ensures d in after <==> d == id || d in before
      ensures d in after ==> after[d] == if d == id then Count(terms, t) + 1 else before[d]
    {
    }
    assert id in before <==> t in terms;
  }

  lemma {:induction false} CountGrows(terms: seq<Term>, t: Term)
    ensures Count(terms + [t], t) == Count(terms, t) + 1 && (Count(terms, t) > 0 <==> t in terms)
  {
    assert (terms + [t])[..|terms|] == terms;
  }

  class Index {
    const tokenizer: Tokenizer
    var postings: Postings
    var lengths: map<Id, nat>
    var totalLength: nat

    /** The documents inserted and not yet removed or replaced. */
    ghost var docs: Docs

    /** The index is the one built afresh from its documents. */
    ghost predicate Valid()
      reads this
    {
      postings == PostingsOf(docs) && lengths == LengthsOf(docs) && totalLength == Total(LengthsOf(docs))
    }

    constructor (tokenizer: Tokenizer)
      ensures Valid() && docs == map[] && this.tokenizer == tokenizer
    {
      this.tokenizer := tokenizer;
      postings, lengths, totalLength, docs := map[], map[], 0, map[];
      new;
      assert PostingsOf(map[]) == map[];
      assert LengthsOf(map[]) == map[];
    }

    method Remove(id: Id)
      requires Valid()
      modifies this
      ensures Valid() && docs == old(docs) - {id}
    {
      if id !in lengths {
        assert docs - {id} == docs;
        return;
      }
      var length := lengths[id];
      TotalSplits(lengths, id);
      RetainedIs(docs, id);
      docs := docs - {id};
      assert lengths - {id} == LengthsOf(docs);
      lengths := lengths - {id};
      totalLength := SaturatingSub(totalLength, length);
      postings := Retained(postings, id);
    }

    method Insert(id: Id, text: string)
      requires Valid()
      modifies this
      ensures Valid() && docs == old(docs)[id := tokenizer.terms(text)]
    {
      hide PostingsOf, LengthsOf, Total, Bumped;
      Remove(id);
      var terms := tokenizer.terms(text);
      EmptyDocument(docs, id);
      for k := 0 to |terms|
        invariant id !in docs && postings == PostingsOf(docs[id := terms[..k]])
        invariant lengths == LengthsOf(docs) && totalLength == Total(LengthsOf(docs)) && docs == old(docs) - {id}
      {
        BumpedIs(docs, id, terms[..k], terms[k]);
        assert terms[..k + 1] == terms[..k] + [terms[k]];
        postings := Bumped(postings, terms[k], id);
      }
      assert terms[..|terms|] == terms;
      LengthsGrow(docs, id, terms);
      lengths := lengths[id := |terms|];
      totalLength := totalLength + |terms|;
      docs := docs[id := terms];
      assert docs == old(docs)[id := terms];
    }

    /** The documents holding every term of the query, ascending; a query without terms finds none. */
    method SearchAllTerms(query: string) returns (found: seq<Id>)
      requires Valid()
      ensures Sorting.Sorted(Below, found)
      ensures forall id :: id in found <==> tokenizer.terms(query) != [] && HoldsAll(docs, tokenizer.terms(query), id)
    {
      hide PostingsOf;
      var terms := tokenizer.terms(query);
      if terms == [] {
        return [];
      }
      var candidates: Option<seq<Id>> := None;
      for k := 0 to |terms|
        invariant candidates == None <==> k == 0
        invariant k > 0 ==> Sorting.Distinct(candidates.value)
        invariant k > 0 ==> forall id :: id in candidates.value <==> HoldsAll(docs, terms[..k], id)
      {
        HoldsMore(docs, terms, k);
        Posted(docs, terms[k]);
        if terms[k] !in postings {
          NoneHolds(docs, terms, k);
          return [];
        }
        var ids := IdsOf(postings[terms[k]]);
        match candidates
        case None => candidates := Some(ids);
        case Some(previous) =>
          KeptIs(previous, ids);
          candidates := Some(Kept(previous, ids));
      }
      assert terms[..|terms|] == terms;
      IdsOrder(candidates.value);
      Sorting.Sorts(Below, candidates.value);
      found := Sorting.SortBy(Below, candidates.value);
    }

    /**
      The documents holding some term of the query, by score and then by id; at most `limit` of them.
      The natural logarithm is a parameter.
     */
    method Search(maths: Maths, query: string, limit: nat) returns (ranked: seq<Hit>, ghost whole: seq<Hit>)
      requires Valid()
      ensures Ranking(maths, docs, tokenizer.terms(query), whole)
      ensures ranked == whole[..(if limit < |whole| then limit else |whole|)]
    {
      hide PostingsOf, LengthsOf, Total;
      var terms := tokenizer.terms(query);
      LengthsKeys(docs);
      if |lengths| == 0 {
        whole := [];
        NothingRanks(maths, docs, terms);
        return [], whole;
      }
      var averageLength := totalLength as real / |lengths| as real;
      var scores: map<Id, real> := map[];
      for k := 0 to |terms|
        invariant Scored(maths, docs, terms[..k], scores)
      {
        Posted(docs, terms[k]);
        assert terms[..k + 1][..k] == terms[..k] && terms[..k + 1] == terms[..k] + [terms[k]];
        if terms[k] in postings {
          scores := AddTerm(maths, terms[k], averageLength, scores, terms[..k]);
        } else {
          ScoredAbsent(maths, docs, terms[..k], terms[k], scores);
        }
      }
      assert terms[..|terms|] == terms;
      var hits := HitsOf(scores);
      HitsOrder(hits);
      Sorting.Sorts(RanksBefore, hits);
      var sorted := Sorting.SortBy(RanksBefore, hits);
      whole := sorted;
      RankingReached(maths, docs, terms, scores, hits);
      ranked := sorted[..(if limit < |sorted| then limit else |sorted|)];
    }

    /** The contribution of one term, added up for every document that holds it. */
    method AddTerm(
      maths: Maths, t: Term, averageLength: real, scores: map<Id, real>,
      ghost before: seq<Term>) returns (after: map<Id, real>)
      requires Valid() && t in postings && docs != map[] && averageLength == Average(docs)
      requires Scored(maths, docs, before, scores)
      ensures Scored(maths, docs, before + [t], after)
    {
      hide PostingsOf, Idf, Normalised, Average, Total;
      Posted(docs, t);
      LengthsKeys(docs);
      var documents := postings[t];
      var idf := Idf(maths, |lengths|, |documents|);
      after := scores;
      var ids := IdsOf(documents);
      for m := 0 to |ids|
        invariant forall id :: id in after <==> id in scores || id in ids[..m]
        invariant forall id :: id in after ==>
          after[id] == (if id in scores then scores[id] else 0.0)
            + (if id in ids[..m] then Contribution(maths, docs, t, id) else 0.0)
      {
        var id := ids[m];
        assert id in documents && id !in ids[..m];
        var score := idf * Normalised(documents[id], lengths[id], averageLength);
        assert score == Contribution(maths, docs, t, id);
        assert ids[..m + 1] == ids[..m] + [id];
        after := after[id := (if id in after then after[id] else 0.0) + score];
      }
      assert ids[..|ids|] == ids;
      ScoredMore(maths, docs, before, t, scores, after);
    }
  }

  lemma {:induction false} LengthsGrow(docs: Docs, id: Id, terms: seq<Term>)
    requires id !in docs
    ensures LengthsOf(docs[id := terms]) == LengthsOf(docs)[id := |terms|]
    ensures Total(LengthsOf(docs[id := terms])) == Total(LengthsOf(docs)) + |terms|
  {
    hide Total;
    var after := LengthsOf(docs[id := terms]);
    TotalSplits(after, id);
    assert after - {id} == LengthsOf(docs);
  }

  /** A document without terms leaves the postings as they were. */
  lemma {:induction false} EmptyDocument(docs: Docs, id: Id)
    requires id !in docs
    ensures PostingsOf(docs[id := []]) == PostingsOf(docs)
  {
    var after := docs[id := []];
    forall t
      ensures t in PostingsOf(docs) <==> exists d :: d in after && t in after[d]
      ensures t in PostingsOf(docs) ==> PostingsOf(docs)[t] == PostingOf(after, t)
    {
      InAllTerms(docs, t);
      assert PostingOf(after, t) == PostingOf(docs, t);
      if exists d :: d in docs && t in docs[d] {
        var d :| d in docs && t in docs[d];
        assert d in after && t in after[d];
      }
    }
    SamePostings(PostingsOf(docs), after);
  }

  // ---- what the index looks like ------------------------------------------------------------------------

  lemma {:induction false} Posted(docs: Docs, t: Term)
    ensures t in PostingsOf(docs) <==> exists id :: id in docs && t in docs[id]
    ensures t in PostingsOf(docs) ==> PostingsOf(docs)[t] == PostingOf(docs, t)
  {
    InAllTerms(docs, t);
  }

  lemma {:induction false} LengthsKeys(docs: Docs)
    ensures LengthsOf(docs).Keys == docs.Keys && |LengthsOf(docs)| == |docs|
  {
    assert LengthsOf(docs).Keys == docs.Keys;
    assert |LengthsOf(docs)| == |LengthsOf(docs).Keys| && |docs| == |docs.Keys|;
  }

  /** No posting is empty, and every multiplicity is exact. */
  lemma {:induction false} PostingsExact(docs: Docs, t: Term)
    ensures t in PostingsOf(docs) ==> PostingsOf(docs)[t] != map[]
    ensures forall id :: t in PostingsOf(docs) && id in PostingsOf(docs)[t] <==> id in docs && t in docs[id]
    ensures forall id :: id in docs && t in docs[id] ==> PostingsOf(docs)[t][id] == multiset(docs[id])[t]
  {
    Posted(docs, t);
    if t in PostingsOf(docs) {
      var id :| id in docs && t in docs[id];
      assert id in PostingOf(docs, t);
    }
    forall id | id in docs && t in docs[id]
      ensures PostingOf(docs, t)[id] == multiset(docs[id])[t]
    {
      CountIs(docs[id], t);
    }
  }

  lemma {:induction false} CountIs(terms: seq<Term>, t: Term)
    ensures Count(terms, t) == multiset(terms)[t]
  {
    if terms != [] {
      var n := |terms| - 1;
      CountIs(terms[..n], t);
      assert terms == terms[..n] + [terms[n]];
    }
  }

  // ---- runs -------------------------------------------------------------------------------------------------

  datatype Operation = Insertion(id: Id, text: string) | Removal(id: Id)

  /** The documents left after some operations: the last insertion of each id not removed since. */
  function Survivors(tokenizer: Tokenizer, operations: seq<Operation>): Docs {
    if operations == [] then map[]
    else
      var before := Survivors(tokenizer, operations[..|operations| - 1]);
      match operations[|operations| - 1]
      case Insertion(id, text) => before[id := tokenizer.terms(text)]
      case Removal(id) => before - {id}
  }

  /** After any run of insertions and removals the index is the one built afresh from the surviving documents. */
  method RunOperations(tokenizer: Tokenizer, operations: seq<Operation>) returns (index: Index)
    ensures fresh(index) && index.Valid() && index.docs == Survivors(tokenizer, operations)
    ensures index.postings == PostingsOf(Survivors(tokenizer, operations))
    ensures index.lengths == LengthsOf(Survivors(tokenizer, operations))
    ensures index.totalLength == Total(LengthsOf(Survivors(tokenizer, operations)))
  {
    index := new Index(tokenizer);
    for k := 0 to |operations|
      invariant fresh(index) && index.Valid() && index.tokenizer == tokenizer
      invariant index.docs == Survivors(tokenizer, operations[..k])
    {
      assert operations[..k + 1][..k] == operations[..k];
      match operations[k]
      case Insertion(id, text) => index.Insert(id, text);
      case Removal(id) => index.Remove(id);
    }
    assert operations[..|operations|] == operations;
  }

  // ---- every term --------------------------------------------------------------------------------------------

  predicate Below(a: Id, b: Id) {
    a < b
  }

  ghost predicate HoldsAll(docs: Docs, terms: seq<Term>, id: Id) {
    id in docs && forall t :: t in terms ==> t in docs[id]
  }

  lemma {:induction false} HoldsMore(docs: Docs, terms: seq<Term>, k: nat)
    requires k < |terms|
    ensures forall id :: HoldsAll(docs, terms[..k + 1], id) <==> HoldsAll(docs, terms[..k], id) && terms[k] in docs[id]
  {
    assert terms[..k + 1] == terms[..k] + [terms[k]];
  }

  lemma {:induction false} NoneHolds(docs: Docs, terms: seq<Term>, k: nat)
    requires k < |terms| && !exists id :: id in docs && terms[k] in docs[id]
    ensures forall id :: !HoldsAll(docs, terms, id)
  {
    assert terms[k] in terms;
  }

  /** The keys of a hash map, in no particular order. */
  method IdsOf(documents: map<Id, nat>) returns (ids: seq<Id>)
    ensures Sorting.Distinct(ids) && forall id :: id in ids <==> id in documents
  {
    ids := [];
    var rest := documents.Keys;
    while rest != {}
      invariant rest <= documents.Keys && Sorting.Distinct(ids)
      invariant forall id :: id in ids <==> id in documents && id !in rest
      decreases |rest|
    {
      var id :| id in rest;
      ids := ids + [id];
      rest := rest - {id};
    }
  }

  function Kept(previous: seq<Id>, ids: seq<Id>): seq<Id> {
    if previous == [] then []
    else
      var n := |previous| - 1;
      Kept(previous[..n], ids) + if previous[n] in ids then [previous[n]] else []
  }

  lemma {:induction false} KeptIs(previous: seq<Id>, ids: seq<Id>)
    requires Sorting.Distinct(previous)
    ensures Sorting.Distinct(Kept(previous, ids)) && forall id ::
            id in Kept(previous, ids) <==> id in previous && id in ids
  {
    if previous != [] {
      var n := |previous| - 1;
      KeptIs(previous[..n], ids);
      assert previous == previous[..n] + [previous[n]];
      assert previous[n] !in previous[..n];
    }
  }

  lemma {:induction false} IdsOrder(ids: seq<Id>)
    ensures Sorting.Orders(Below, ids)
  {
  }

  // ---- ranking ------------------------------------------------------------------------------------------------

  const K1 := 1.2
  const B := 0.75

  datatype Maths = Maths(ln: real -> real)

  /** How much a term that appears in some of the documents tells. */
  function Idf(maths: Maths, count: nat, appearances: nat): real {
    maths.ln((count as real - appearances as real + 0.5) / (appearances as real + 0.5) + 1.0)
  }

  function LengthPenalty(length: nat, average: real): (penalty: real)
    ensures penalty > 0.0
  {
    var floor := if average > 1.0 then average else 1.0;
    Share(length as real, floor);
    K1 * (1.0 - B + B * (length as real / floor))
  }

  lemma {:induction false} Share(length: real, floor: real)
    requires length >= 0.0 && floor >= 1.0
    ensures length / floor >= 0.0
  {
  }

  function Normalised(frequency: nat, length: nat, average: real): real {
    frequency as real * (K1 + 1.0) / (frequency as real + LengthPenalty(length, average))
  }

  ghost function Average(docs: Docs): real
    requires docs != map[]
  {
    LengthsKeys(docs);
    Total(LengthsOf(docs)) as real / |LengthsOf(docs)| as real
  }

  /** What one term of the query adds to a document's score. */
  ghost function Contribution(maths: Maths, docs: Docs, t: Term, id: Id): real {
    if id in docs && t in docs[id] then
      Idf(maths, |docs|, |PostingOf(docs, t)|) * Normalised(Count(docs[id], t), |docs[id]|, Average(docs))
    else 0.0
  }

  ghost function Score(maths: Maths, docs: Docs, terms: seq<Term>, id: Id): real {
    if terms == [] then 0.0
    else Score(maths, docs, terms[..|terms| - 1], id) + Contribution(maths, docs, terms[|terms| - 1], id)
  }

  ghost predicate HoldsSome(docs: Docs, terms: seq<Term>, id: Id) {
    id in docs && exists t :: t in terms && t in docs[id]
  }

  /** The scores of exactly the documents that hold some of the terms. */
  ghost predicate Scored(maths: Maths, docs: Docs, terms: seq<Term>, scores: map<Id, real>) {
    && (forall id :: id in scores <==> HoldsSome(docs, terms, id))
    && (forall id :: id in scores ==> scores[id] == Score(maths, docs, terms, id))
  }

  lemma {:induction false} NoScore(maths: Maths, docs: Docs, terms: seq<Term>, id: Id)
    requires !HoldsSome(docs, terms, id)
    ensures Score(maths, docs, terms, id) == 0.0
  {
    if terms != [] {
      var n := |terms| - 1;
      assert terms == terms[..n] + [terms[n]];
      assert forall t :: t in terms[..n] ==> t in terms;
      NoScore(maths, docs, terms[..n], id);
    }
  }

  lemma {:induction false} HoldsSomeMore(docs: Docs, before: seq<Term>, t: Term, id: Id)
    ensures HoldsSome(docs, before + [t], id) <==> HoldsSome(docs, before, id) || (id in docs && t in docs[id])
  {
    if HoldsSome(docs, before, id) {
      var u :| u in before && u in docs[id];
      assert u in before + [t];
    }
    assert t in before + [t];
  }

  lemma {:induction false} ScoredMore(
    maths: Maths, docs: Docs, before: seq<Term>, t: Term, scores: map<Id, real>, after: map<Id, real>)
    requires Scored(maths, docs, before, scores)
    requires forall id :: id in after <==> id in scores || (id in docs && t in docs[id])
    requires forall id :: id in after
                          ==> after[id] == (if id in scores then scores[id] else 0.0) + Contribution(maths, docs, t, id)
    ensures Scored(maths, docs, before + [t], after)
  {
    hide HoldsSome, Contribution;
    assert (before + [t])[..|before|] == before;
    forall id
      ensures id in after <==> HoldsSome(docs, before + [t], id)
      ensures id in after ==> after[id] == Score(maths, docs, before + [t], id)
    {
      HoldsSomeMore(docs, before, t, id);
      if id !in scores {
        NoScore(maths, docs, before, id);
      }
    }
  }

  lemma {:induction false} ScoredAbsent(maths: Maths, docs: Docs, before: seq<Term>, t: Term, scores: map<Id, real>)
    requires Scored(maths, docs, before, scores) && !exists id :: id in docs && t in docs[id]
    ensures Scored(maths, docs, before + [t], scores)
  {
    ScoredMore(maths, docs, before, t, scores, scores);
  }

  datatype Hit = Hit(id: Id, score: real)

  /** Better scores first; equal ones by id. */
  predicate RanksBefore(a: Hit, b: Hit) {
    a.score > b.score || (a.score == b.score && a.id < b.id)
  }

  ghost predicate Ranking(maths: Maths, docs: Docs, terms: seq<Term>, whole: seq<Hit>) {
    && Sorting.Sorted(RanksBefore, whole)
    && forall h :: h in whole <==> HoldsSome(docs, terms, h.id) && h.score == Score(maths, docs, terms, h.id)
  }

  method HitsOf(scores: map<Id, real>) returns (hits: seq<Hit>)
    ensures Sorting.Distinct(hits) && forall h :: h in hits <==> h.id in scores && h.score == scores[h.id]
  {
    hits := [];
    var rest := scores.Keys;
    while rest != {}
      invariant rest <= scores.Keys && Sorting.Distinct(hits)
      invariant forall h :: h in hits <==> h.id in scores && h.id !in rest && h.score == scores[h.id]
      decreases |rest|
    {
      var id :| id in rest;
      hits := hits + [Hit(id, scores[id])];
      rest := rest - {id};
    }
  }

  lemma {:induction false} HitsOrder(hits: seq<Hit>)
    ensures Sorting.Orders(RanksBefore, hits)
  {
  }

  lemma {:induction false} NothingRanks(maths: Maths, docs: Docs, terms: seq<Term>)
    requires |docs| == 0
    ensures Ranking(maths, docs, terms, [])
  {
    assert docs == map[];
  }

  lemma {:induction false} RankingReached(
    maths: Maths, docs: Docs, terms: seq<Term>, scores: map<Id, real>, hits: seq<Hit>)
    requires Scored(maths, docs, terms, scores)
    requires forall h :: h in hits <==> h.id in scores && h.score == scores[h.id]
    requires Sorting.Sorted(RanksBefore, Sorting.SortBy(RanksBefore, hits))
    requires forall h :: h in Sorting.SortBy(RanksBefore, hits) <==> h in hits
    ensures Ranking(maths, docs, terms, Sorting.SortBy(RanksBefore, hits))
  {
    hide HoldsSome;
  }

  /** There is one ranking: the answer does not depend on the order hash maps are walked in. */
  lemma {:induction false} RankingUnique(maths: Maths, docs: Docs, terms: seq<Term>, a: seq<Hit>, b: seq<Hit>)
    requires Ranking(maths, docs, terms, a) && Ranking(maths, docs, terms, b)
    ensures a == b
  {
    hide HoldsSome;
    HitsOrder(a);
    Sorting.SortedUnique(RanksBefore, a, b);
  }

  ghost predicate PositiveAboveOne(maths: Maths) {
    forall x :: x > 1.0 ==> maths.ln(x) > 0.0
  }

  /** Every term a document shares with the query counts in its favour, however common the term. */
  lemma {:induction false} SharedTermsCount(maths: Maths, docs: Docs, t: Term, id: Id)
    requires PositiveAboveOne(maths) && id in docs && t in docs[id]
    ensures Contribution(maths, docs, t, id) > 0.0
  {
    var appearances := |PostingOf(docs, t)|;
    FewerThanAll(docs, t);
    var ratio := (|docs| as real - appearances as real + 0.5) / (appearances as real + 0.5);
    PositiveQuotient(|docs| as real - appearances as real + 0.5, appearances as real + 0.5);
    assert Idf(maths, |docs|, appearances) == maths.ln(ratio + 1.0);
    var tf := Count(docs[id], t) as real;
    var penalty := LengthPenalty(|docs[id]|, Average(docs));
    PositiveQuotient(tf * (K1 + 1.0), tf + penalty);
    PositiveProduct(Idf(maths, |docs|, appearances), Normalised(Count(docs[id], t), |docs[id]|, Average(docs)));
  }

  lemma {:induction false} PositiveQuotient(a: real, b: real)
    requires a > 0.0 && b > 0.0
    ensures a / b > 0.0
  {
  }

  lemma {:induction false} PositiveProduct(a: real, b: real)
    requires a > 0.0 && b > 0.0
    ensures a * b > 0.0
  {
  }

  lemma {:induction false} FewerThanAll(docs: Docs, t: Term)
    ensures |PostingOf(docs, t)| <= |docs|
  {
    assert PostingOf(docs, t).Keys <= docs.Keys;
    Subset(PostingOf(docs, t).Keys, docs.Keys);
  }

  lemma {:induction false} Subset(a: set<Id>, b: set<Id>)
    requires a <= b
    ensures |a| <= |b|
  {
    assert b == a + (b - a);
  }

  /** Every document found has a positive score. */
  lemma {:induction false} FoundScoresArePositive(maths: Maths, docs: Docs, terms: seq<Term>, id: Id)
    requires PositiveAboveOne(maths) && HoldsSome(docs, terms, id)
    ensures Score(maths, docs, terms, id) > 0.0
  {
    hide Contribution, PositiveAboveOne;
    var n := |terms| - 1;
    assert terms == terms[..n] + [terms[n]];
    HoldsSomeMore(docs, terms[..n], terms[n], id);
    if id in docs && terms[n] in docs[id] {
      SharedTermsCount(maths, docs, terms[n], id);
    } else {
      NoContribution(maths, docs, terms[n], id);
    }
    if HoldsSome(docs, terms[..n], id) {
      FoundScoresArePositive(maths, docs, terms[..n], id);
    } else {
      NoScore(maths, docs, terms[..n], id);
    }
  }

  lemma {:induction false} NoContribution(maths: Maths, docs: Docs, t: Term, id: Id)
    requires !(id in docs && t in docs[id])
    ensures Contribution(maths, docs, t, id) == 0.0
  {
  }

  /** Repeating a term helps less and less: its weight rises, and never reaches `K1 + 1`. */
  lemma {:induction false} FrequencySaturates(m: nat, n: nat, length: nat, average: real)
    requires m < n
    ensures Normalised(m, length, average) < Normalised(n, length, average) < K1 + 1.0
  {
    var p := LengthPenalty(length, average);
    var x, y := m as real, n as real;
    Saturates(x, y, p);
  }

  lemma {:induction false} Saturates(x: real, y: real, p: real)
    requires 0.0 <= x < y && p > 0.0
    ensures x * 2.2 / (x + p) < y * 2.2 / (y + p) < 2.2
  {
    var a, b := x * 2.2 / (x + p), y * 2.2 / (y + p);
    Short(x, p, a);
    Short(y, p, b);
    if a >= b {
      Product(2.2 - a, 2.2 - b, y + p);
      Product(x + p, y + p, 2.2 - a);
    }
  }

  /** How far a weight is from its bound. */
  lemma {:induction false} Short(x: real, p: real, a: real)
    requires x >= 0.0 && p > 0.0 && a == x * 2.2 / (x + p)
    ensures (2.2 - a) * (x + p) == 2.2 * p && a < 2.2
  {
    assert a * (x + p) == x * 2.2;
    if a >= 2.2 {
      Product(2.2, a, x + p);
    }
  }

  lemma {:induction false} Product(a: real, b: real, c: real)
    requires a <= b && c > 0.0
    ensures a * c <= b * c && (a < b ==> a * c < b * c)
  {
    assert (b - a) * c >= 0.0 && (a < b ==> (b - a) * c > 0.0);
  }

  /** How far a weight is from its bound: as the length counts, and less the more often the term stands there. */
  lemma {:induction false} ShortOfBound(frequency: nat, length: nat, average: real)
    ensures var penalty := LengthPenalty(length, average);
            (K1 + 1.0 - Normalised(frequency, length, average)) * (frequency as real + penalty)
            == (K1 + 1.0) * penalty
  {
    Short(frequency as real, LengthPenalty(length, average), Normalised(frequency, length, average));
  }

  ghost predicate Increasing(maths: Maths) {
    forall x, y :: 0.0 < x < y ==> maths.ln(x) < maths.ln(y)
  }

  /** A term that fewer documents hold tells more. */
  lemma {:induction false} RarerTellsMore(maths: Maths, count: nat, few: nat, many: nat)
    requires Increasing(maths) && few < many <= count
    ensures Idf(maths, count, many) < Idf(maths, count, few)
  {
    var a, b := count as real - many as real + 0.5, many as real + 0.5;
    var c, d := count as real - few as real + 0.5, few as real + 0.5;
    Quotients(a, b, c, d);
  }

  lemma {:induction false} Quotients(a: real, b: real, c: real, d: real)
    requires 0.0 < a < c && 0.0 < d < b
    ensures 0.0 < a / b < c / d
  {
    assert a / b * b == a && c / d * d == c;
    if a / b >= c / d {
      Product(c / d, a / b, d);
      Product(d, b, a / b);
    }
  }

  /** Of two documents with a term equally often, the longer one scores lower. */
  lemma {:induction false} LongerScoresLower(frequency: nat, short: nat, long: nat, average: real)
    requires frequency > 0 && short < long
    ensures Normalised(frequency, long, average) < Normalised(frequency, short, average)
  {
    PenaltyGrows(short, long, average);
    Falls(frequency as real * (K1 + 1.0), frequency as real + LengthPenalty(short, average),
          frequency as real + LengthPenalty(long, average));
  }

  lemma {:induction false} PenaltyGrows(short: nat, long: nat, average: real)
    requires short < long
    ensures LengthPenalty(short, average) < LengthPenalty(long, average)
  {
    var floor := if average > 1.0 then average else 1.0;
    var x, y := short as real / floor, long as real / floor;
    assert x * floor == short as real && y * floor == long as real;
    if x >= y {
      Product(y, x, floor);
    }
    assert LengthPenalty(short, average) == 1.2 * (0.25 + 0.75 * x);
    assert LengthPenalty(long, average) == 1.2 * (0.25 + 0.75 * y);
  }

  lemma {:induction false} Falls(n: real, a: real, b: real)
    requires n > 0.0 && 0.0 < a < b
    ensures n / b < n / a
  {
    assert n / a * a == n && n / b * b == n;
    if n / b >= n / a {
      Product(n / a, n / b, a);
      Product(a, b, n / b);
    }
  }
}
