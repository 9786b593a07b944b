/** The in-memory vector index of backend/internal/llmgw/memstore.go. Scores are reals; the cosine
    and keyword scores are parameters. Iteration over a map takes its keys in an arbitrary order. */
module VectorStore {
  import opened Base

  /** A stored item as a value; a missing vector is None. */
  datatype Item = Item(id: string, documentId: string, content: string, vector: Option<seq<real>>)

  datatype Hit = Hit(item: Item, score: real)

  /** An item as the index stores it and as the caller passes it: its vector lives in an array. */
  datatype Row = Row(id: string, documentId: string, content: string, vector: array?<real>)

  type Collection = map<string, Item>

  type Scorer = Item -> Option<real>

  // ---- ranking ----

  /** The comparison handed to the sort: higher score first, equal scores by identifier. */
  predicate Before(h: Hit, k: Hit) {
    if h.score != k.score then h.score > k.score else Less(h.item.id, k.item.id)
  }

  lemma BeforeIsTotal(h: Hit, k: Hit)
    ensures h.item.id == k.item.id || Before(h, k) || Before(k, h)
    ensures !(Before(h, k) && Before(k, h)) && !Before(h, h)
  {
    LessIsTotal(h.item.id, k.item.id);
  }

  lemma BeforeIsTransitive(h: Hit, k: Hit, l: Hit)
    requires Before(h, k) && Before(k, l)
    ensures Before(h, l)
  {
    if h.score == k.score == l.score {
      LessIsTransitive(h.item.id, k.item.id, l.item.id);
    }
  }

  function Insert(h: Hit, s: seq<Hit>): seq<Hit> {
    if s == [] || !Before(s[0], h) then [h] + s else [s[0]] + Insert(h, s[1..])
  }

  /** A stable sort. */
  function SortHits(s: seq<Hit>): seq<Hit> {
    if s == [] then [] else Insert(s[0], SortHits(s[1..]))
  }

  predicate Ranked(s: seq<Hit>) {
    forall i, j | 0 <= i < j < |s| :: Before(s[i], s[j])
  }

  predicate DistinctIds(s: seq<Hit>) {
    forall i, j | 0 <= i < j < |s| :: s[i].item.id != s[j].item.id
  }

  lemma {:induction false} InsertRanks(h: Hit, s: seq<Hit>)
    requires Ranked(s) && forall k | k in s :: k.item.id != h.item.id
    ensures Ranked(Insert(h, s)) && |Insert(h, s)| == |s| + 1
    ensures forall k :: k in Insert(h, s) <==> k == h || k in s
    decreases |s|
  {
    if s != [] {
      BeforeIsTotal(s[0], h);
      if Before(s[0], h) {
        InsertRanks(h, s[1..]);
        var t := Insert(h, s[1..]);
        assert forall k | k in t :: k == h || k in s[1..];
        assert forall k | k in s[1..] :: Before(s[0], k);
        assert Insert(h, s) == [s[0]] + t;
      } else {
        forall j | 0 <= j < |s| ensures Before(h, s[j]) {
          if j > 0 {
            BeforeIsTransitive(h, s[0], s[j]);
          }
        }
      }
    }
  }

  lemma {:induction false} SortRanks(s: seq<Hit>)
    requires DistinctIds(s)
    ensures Ranked(SortHits(s)) && |SortHits(s)| == |s|
    ensures forall k :: k in SortHits(s) <==> k in s
    decreases |s|
  {
    if s != [] {
      var t := s[1..];
      assert DistinctIds(t) by {
        assert forall i | 0 <= i < |t| :: t[i] == s[i + 1];
      }
      SortRanks(t);
      assert forall k | k in t :: exists j :: 1 <= j < |s| && s[j] == k;
      InsertRanks(s[0], SortHits(t));
      assert s == [s[0]] + t;
    }
  }

  // ---- what a search returns ----

  /** A hit of the collection: an item that the scorer scores, with its score. */
  predicate IsHit(c: Collection, scorer: Scorer, h: Hit) {
    h.item.id in c && c[h.item.id] == h.item && scorer(h.item) == Some(h.score)
  }

  /** The specification of a search: only hits of the collection, in rank order, at most `topK` of
      them when it is positive, and any hit left out is outranked by all of `topK` returned ones. */
  ghost predicate IsAnswer(c: Collection, scorer: Scorer, topK: int, answer: seq<Hit>) {
    && Ranked(answer)
    && (forall h | h in answer :: IsHit(c, scorer, h))
    && (topK > 0 ==> |answer| <= topK)
    && (forall h | IsHit(c, scorer, h) && h !in answer ::
          topK > 0 && |answer| == topK && forall k | k in answer :: Before(k, h))
  }

  /** Keys and identifiers agree: the invariant of every stored collection. */
  predicate Keyed(c: Collection) {
    forall id | id in c :: c[id].id == id
  }

  lemma {:induction false} AgreeUpTo(c: Collection, scorer: Scorer, topK: int, a: seq<Hit>, b: seq<Hit>, n: nat)
    requires IsAnswer(c, scorer, topK, a) && IsAnswer(c, scorer, topK, b)
    requires n <= |a| && n <= |b|
    ensures a[..n] == b[..n]
    decreases n
  {
    if n > 0 {
      AgreeUpTo(c, scorer, topK, a, b, n - 1);
      var i := n - 1;
      assert forall j | 0 <= j < i :: a[j] == a[..i][j] == b[..i][j] == b[j];
      BeforeIsTotal(a[i], b[i]);
      Outranks(c, scorer, topK, a, b, i);
      Outranks(c, scorer, topK, b, a, i);
      assert IsHit(c, scorer, a[i]) && IsHit(c, scorer, b[i]);
      assert a[..n] == a[..i] + [a[i]] && b[..n] == b[..i] + [b[i]];
    }
  }

  /** An answer cannot have skipped a hit that outranks one it returned. */
  lemma Outranks(c: Collection, scorer: Scorer, topK: int, a: seq<Hit>, b: seq<Hit>, i: nat)
    requires IsAnswer(c, scorer, topK, a) && IsAnswer(c, scorer, topK, b)
    requires i < |a| && i < |b| && forall j | 0 <= j < i :: a[j] == b[j]
    ensures !Before(a[i], b[i])
  {
    BeforeIsTotal(a[i], b[i]);
    assert IsHit(c, scorer, a[i]);
    if a[i] in b {
      var j :| 0 <= j < |b| && b[j] == a[i];
      BeforeIsTotal(a[i], a[i]);
      assert j >= i;
    } else {
      assert b[i] in b;
    }
  }

  /** The specification leaves no choice: whatever order a map is iterated in, the search returns
      the same sequence. */
  lemma AnswerIsUnique(c: Collection, scorer: Scorer, topK: int, a: seq<Hit>, b: seq<Hit>)
    requires IsAnswer(c, scorer, topK, a) && IsAnswer(c, scorer, topK, b)
    ensures a == b
  {
    if |a| <= |b| {
      AgreeUpTo(c, scorer, topK, a, b, |a|);
      NoLonger(c, scorer, topK, a, b);
    } else {
      AgreeUpTo(c, scorer, topK, a, b, |b|);
      NoLonger(c, scorer, topK, b, a);
    }
  }

  lemma NoLonger(c: Collection, scorer: Scorer, topK: int, a: seq<Hit>, b: seq<Hit>)
    requires IsAnswer(c, scorer, topK, a) && IsAnswer(c, scorer, topK, b)
    requires |a| <= |b| && a[..|a|] == b[..|a|]
    ensures a == b
  {
    assert a[..|a|] == a;
    if |a| < |b| {
      RankedIsFresh(b, |a|);
      assert false;
    }
    assert b[..|b|] == b;
  }

  lemma RankedIsFresh(s: seq<Hit>, n: nat)
    requires Ranked(s) && n < |s|
    ensures s[n] in s && s[n] !in s[..n]
  {
    BeforeIsTotal(s[n], s[n]);
  }

  /** The first `topK` elements of all hits in rank order are an answer. */
  lemma PrefixIsAnswer(c: Collection, scorer: Scorer, topK: int, all: seq<Hit>)
    requires Ranked(all) && (forall h :: h in all <==> IsHit(c, scorer, h))
    ensures IsAnswer(c, scorer, topK, if topK > 0 && |all| > topK then all[..topK] else all)
  {
    if topK > 0 && |all| > topK {
      var a := all[..topK];
      assert forall j | 0 <= j < topK :: a[j] == all[j] && all[j] in a;
      forall h | IsHit(c, scorer, h) && h !in a
        ensures forall k | k in a :: Before(k, h)
      {
        var j :| 0 <= j < |all| && all[j] == h;
        assert j >= topK;
      }
    }
  }

  /** The hits gathered so far from the keys in `done`. */
  ghost predicate Collected(c: Collection, scorer: Scorer, done: set<string>, hits: seq<Hit>) {
    && DistinctIds(hits)
    && (forall h | h in hits :: h.item.id in done && IsHit(c, scorer, h))
    && (forall h: Hit | h.item.id in done && IsHit(c, scorer, h) :: h in hits)
  }

  /** The loop both searches share: score every item in an arbitrary order, sort, cut. */
  method Rank(c: Collection, scorer: Scorer, topK: int) returns (hits: seq<Hit>)
    requires Keyed(c)
    ensures IsAnswer(c, scorer, topK, hits)
  {
    hits := [];
    var todo := c.Keys;
    while todo != {}
      invariant todo <= c.Keys
      invariant Collected(c, scorer, c.Keys - todo, hits)
      decreases todo
    {
      var id :| id in todo;
      ghost var done := c.Keys - todo;
      var score := scorer(c[id]);
      todo := todo - {id};
      assert c.Keys - todo == done + {id};
      if score.Some? {
        hits := hits + [Hit(c[id], score.value)];
      }
    }
    assert c.Keys - todo == c.Keys;
    assert forall h: Hit :: h in hits <==> IsHit(c, scorer, h);
    SortRanks(hits);
    hits := SortHits(hits);
    PrefixIsAnswer(c, scorer, topK, hits);
    if topK > 0 && |hits| > topK {
      hits := hits[..topK];
    }
  }

  // ---- the store ----

  /** An item is scored by cosine unless either vector is empty or the dimensions differ. */
  function CosineScorer(query: seq<real>, cosine: (seq<real>, seq<real>) -> Option<real>): Scorer {
    (it: Item) =>
      if query == [] || it.vector.None? || it.vector.value == [] then None else cosine(query, it.vector.value)
  }

  /** An item is scored by keyword unless its score is not positive. */
  function KeywordScorer(query: string, keyword: (string, string) -> real): Scorer {
    (it: Item) =>
      var s := keyword(query, it.content);
      if s <= 0.0 then None else Some(s)
  }

  function Value(r: Row): Item
    reads if r.vector == null then {} else {r.vector}
  {
    Item(r.id, r.documentId, r.content, if r.vector == null then None else Some(r.vector[..]))
  }

  ghost function Arrays(c: map<string, Row>): set<object> {
    set id | id in c && c[id].vector != null :: c[id].vector as object
  }

  function Values(c: map<string, Row>): Collection
    reads Arrays(c)
  {
    map id | id in c :: Value(c[id])
  }

  function ValuesOf(rows: seq<Row>): seq<Item>
    reads set r | r in rows && r.vector != null :: r.vector
  {
    seq(|rows|, i requires 0 <= i < |rows|
                  reads set r | r in rows && r.vector != null :: r.vector
                => Value(rows[i]))
  }

  /** A collection after storing the items in order: the last one with an identifier wins. */
  function Stored(c: Collection, items: seq<Item>): Collection
    decreases |items|
  {
    if items == [] then c
    else
      var last := items[|items| - 1];
      Stored(c, items[..|items| - 1])[last.id := last]
  }

  lemma {:induction false} StoredIsKeyed(c: Collection, items: seq<Item>)
    requires Keyed(c)
    ensures Keyed(Stored(c, items))
    decreases |items|
  {
    if items != [] {
      StoredIsKeyed(c, items[..|items| - 1]);
    }
  }

  /** The i-th item is the last one with its identifier. */
  predicate LastWith(items: seq<Item>, i: nat, id: string) {
    i < |items| && items[i].id == id && forall j | i < j < |items| :: items[j].id != id
  }

  /** What an upsert leaves under an identifier: the last of the items with it, */
  lemma {:induction false} StoredLast(c: Collection, items: seq<Item>, i: nat, id: string)
    requires LastWith(items, i, id)
    ensures id in Stored(c, items) && Stored(c, items)[id] == items[i]
    decreases |items|
  {
    var n := |items| - 1;
    if i < n {
      assert items[n].id != id;
      LastOfFewer(items, i, id);
      hide LastWith;
      StoredLast(c, items[..n], i, id);
    }
  }

  lemma LastOfFewer(items: seq<Item>, i: nat, id: string)
    requires LastWith(items, i, id) && i < |items| - 1
    ensures LastWith(items[..|items| - 1], i, id)
  {
  }

  /** or, without such an item, what was there. */
  lemma {:induction false} StoredElse(c: Collection, items: seq<Item>, id: string)
    requires forall i | 0 <= i < |items| :: items[i].id != id
    ensures id in Stored(c, items) <==> id in c
    ensures id in c ==> Stored(c, items)[id] == c[id]
    decreases |items|
  {
    if items != [] {
      StoredElse(c, items[..|items| - 1], id);
    }
  }

  lemma ValuesPut(c: map<string, Row>, it: Row)
    ensures Values(c[it.id := it]) == Values(c)[it.id := Value(it)]
  {
  }

  /** The item with its vector copied into a new array. */
  method CopyOf(r: Row) returns (it: Row)
    ensures Value(it) == Value(r) && it.id == r.id
    ensures it.vector != null ==> fresh(it.vector)
  {
    it := r;
    if r.vector != null {
      var v := new real[r.vector.Length](k requires 0 <= k < r.vector.Length reads r.vector => r.vector[k]);
      assert v[..] == r.vector[..];
      it := r.(vector := v);
    }
  }

  /** A collection without the items of a document. */
  function Without(c: Collection, documentId: string): Collection {
    map id | id in c && c[id].documentId != documentId :: c[id]
  }

  lemma ValuesWithout(rows: map<string, Row>, documentId: string)
    ensures Values(map id | id in rows && rows[id].documentId != documentId :: rows[id])
         == Without(Values(rows), documentId)
  {
  }

  /** Deletes the rows of a document, one key after the other. */
  method WithoutDocument(rows: map<string, Row>, documentId: string) returns (c: map<string, Row>)
    ensures c == map id | id in rows && rows[id].documentId != documentId :: rows[id]
  {
    c := rows;
    var todo := c.Keys;
    while todo != {}
      invariant todo <= rows.Keys
      invariant c == map id | id in rows && (id in todo || rows[id].documentId != documentId) :: rows[id]
      decreases todo
    {
      var id :| id in todo;
      if c[id].documentId == documentId {
        c := c - {id};
      }
      todo := todo - {id};
    }
  }

  /** The contents of a collection, empty when there is no such collection. */
  function Lookup(view: map<string, Collection>, n: string): Collection {
    if n in view then view[n] else map[]
  }

  /** The arrays that stored rows hold. */
  ghost function ArraysOf(cs: map<string, map<string, Row>>): set<object> {
    set n, o | n in cs && o in Arrays(cs[n]) :: o
  }

  ghost function ViewOf(cs: map<string, map<string, Row>>): map<string, Collection>
    reads ArraysOf(cs)
  {
    map n | n in cs :: Values(cs[n])
  }

  lemma LookupIs(cs: map<string, map<string, Row>>, n: string)
    ensures Lookup(ViewOf(cs), n) == Values(if n in cs then cs[n] else map[])
  {
    assert Values(map[]) == map[];
  }

  lemma ViewPut(cs: map<string, map<string, Row>>, n: string, c: map<string, Row>)
    ensures ViewOf(cs[n := c]) == ViewOf(cs)[n := Values(c)]
  {
    hide Values;
  }

  predicate KeyedRows(c: map<string, Row>) {
    forall id | id in c :: c[id].id == id
  }

  /** Copies the items into the collection, in order. */
  method StoreAll(c: map<string, Row>, items: seq<Row>) returns (r: map<string, Row>)
    requires KeyedRows(c)
    ensures KeyedRows(r) && fresh(Arrays(r) - Arrays(c))
    ensures Values(r) == Stored(old(Values(c)), old(ValuesOf(items)))
  {
    r := c;
    ghost var start := Values(c);
    ghost var values := ValuesOf(items);
    hide Stored;
    EmptyStored(start, values);
    for i := 0 to |items|
      invariant KeyedRows(r) && fresh(Arrays(r) - Arrays(c))
      invariant Values(r) == Stored(start, values[..i])
    {
      StoredSnoc(start, values, i);
      var it := CopyOf(items[i]);
      ValuesPut(r, it);
      r := r[it.id := it];
    }
    assert values[..|items|] == values;
  }

  lemma EmptyStored(c: Collection, items: seq<Item>)
    ensures Stored(c, items[..0]) == c
  {
  }

  lemma StoredSnoc(c: Collection, items: seq<Item>, i: nat)
    requires i < |items|
    ensures Stored(c, items[..i + 1]) == Stored(c, items[..i])[items[i].id := items[i]]
  {
    assert items[..i + 1][..i] == items[..i];
  }

  // ---- which items a search returns ----

  /** The score of each item that a keyword finds: a positive one. */
  function KeywordScores(c: Collection, query: string, keyword: (string, string) -> real): map<string, real> {
    map id | id in c && keyword(query, c[id].content) > 0.0 :: keyword(query, c[id].content)
  }

  /** The score of each item that a vector finds: both have components and the cosine is defined. */
  function CosineScores(c: Collection, query: seq<real>, cosine: (seq<real>, seq<real>) -> Option<real>): map<string, real> {
    map id | id in c && query != [] && c[id].vector.Some? && c[id].vector.value != []
             && cosine(query, c[id].vector.value).Some?
      :: cosine(query, c[id].vector.value).value
  }

  /** The items with a higher score, or the same score and a smaller identifier. */
  function Ahead(scores: map<string, real>, id: string): set<string>
    requires id in scores
  {
    set k | k in scores && (scores[k] > scores[id] || (scores[k] == scores[id] && Less(k, id)))
  }

  predicate Returned(answer: seq<Hit>, id: string) {
    exists i | 0 <= i < |answer| :: answer[i].item.id == id
  }

  /** An item is in the answer exactly if it has a score and, when `topK` is positive, fewer than
      `topK` items are ahead of it; every hit is a stored item with its score. */
  ghost predicate Answers(c: Collection, scores: map<string, real>, topK: int, answer: seq<Hit>) {
    && (forall i | 0 <= i < |answer| ::
          var id := answer[i].item.id;
          id in c && answer[i].item == c[id] && id in scores && answer[i].score == scores[id]
          && |Ahead(scores, id)| == i)
    && (forall id :: Returned(answer, id) <==> id in scores && (topK <= 0 || |Ahead(scores, id)| < topK))
  }

  /** What a scorer finds. */
  predicate ScoredBy(c: Collection, scorer: Scorer, scores: map<string, real>) {
    && scores.Keys <= c.Keys
    && forall id | id in c :: scorer(c[id]) == if id in scores then Some(scores[id]) else None
  }

  function Ids(s: seq<Hit>): set<string> {
    set i | 0 <= i < |s| :: s[i].item.id
  }

  lemma {:induction false} IdsOfRanked(s: seq<Hit>)
    requires DistinctIds(s)
    ensures |Ids(s)| == |s|
    decreases |s|
  {
    if s != [] {
      var n := |s| - 1;
      IdsOfRanked(s[..n]);
      assert Ids(s) == Ids(s[..n]) + {s[n].item.id};
    }
  }

  lemma AnswerFacts(c: Collection, scorer: Scorer, scores: map<string, real>, topK: int, answer: seq<Hit>)
    requires Keyed(c) && ScoredBy(c, scorer, scores) && IsAnswer(c, scorer, topK, answer)
    ensures forall i | 0 <= i < |answer| :: answer[i].item.id in scores && answer[i].item == c[answer[i].item.id]
                                            && answer[i].score == scores[answer[i].item.id]
    ensures DistinctIds(answer)
  {
    forall i | 0 <= i < |answer|
      ensures answer[i].item.id in scores && answer[i].item == c[answer[i].item.id]
              && answer[i].score == scores[answer[i].item.id]
    {
      assert answer[i] in answer;
      assert IsHit(c, scorer, answer[i]);
    }
    forall i, j | 0 <= i < j < |answer| ensures answer[i].item.id != answer[j].item.id {
      BeforeIsTotal(answer[i], answer[j]);
      LessIsTotal(answer[i].item.id, answer[i].item.id);
    }
  }

  /** The items ahead of the i-th hit are the hits before it. */
  lemma AheadOfHit(c: Collection, scorer: Scorer, scores: map<string, real>, topK: int, answer: seq<Hit>, i: nat)
    requires Keyed(c) && ScoredBy(c, scorer, scores) && IsAnswer(c, scorer, topK, answer) && i < |answer|
    requires answer[i].item.id in scores
    ensures |Ahead(scores, answer[i].item.id)| == i
  {
    AnswerFacts(c, scorer, scores, topK, answer);
    var id := answer[i].item.id;
    forall k | k in Ahead(scores, id) ensures k in Ids(answer[..i]) {
      var h := Hit(c[k], scores[k]);
      assert IsHit(c, scorer, h) && Before(h, answer[i]);
      BeforeIsTotal(h, answer[i]);
      assert answer[i] in answer;
      var j :| 0 <= j < |answer| && answer[j] == h;
      BeforeIsTotal(answer[i], answer[i]);
      assert j < i && answer[..i][j] == h;
    }
    forall j | 0 <= j < i ensures answer[..i][j].item.id in Ahead(scores, id) {
      assert Before(answer[j], answer[i]);
    }
    assert Ahead(scores, id) == Ids(answer[..i]);
    IdsOfRanked(answer[..i]);
  }

  /** A scored item that was left out has all of the answer ahead of it. */
  lemma AheadOfOthers(c: Collection, scorer: Scorer, scores: map<string, real>, topK: int, answer: seq<Hit>, id: string)
    requires Keyed(c) && ScoredBy(c, scorer, scores) && IsAnswer(c, scorer, topK, answer)
    requires id in scores && !Returned(answer, id)
    ensures topK > 0 && |Ahead(scores, id)| >= topK
  {
    AnswerFacts(c, scorer, scores, topK, answer);
    var h := Hit(c[id], scores[id]);
    assert IsHit(c, scorer, h) && h !in answer;
    forall i | 0 <= i < |answer| ensures answer[i].item.id in Ahead(scores, id) {
      assert answer[i] in answer;
    }
    assert Ids(answer) <= Ahead(scores, id);
    SmallerSet(Ids(answer), Ahead(scores, id));
    IdsOfRanked(answer);
  }

  lemma {:induction false} SmallerSet(s: set<string>, t: set<string>)
    requires s <= t
    ensures |s| <= |t|
    decreases |s|
  {
    if s != {} {
      var k :| k in s;
      SmallerSet(s - {k}, t - {k});
    }
  }

  lemma ReturnedExactly(c: Collection, scorer: Scorer, scores: map<string, real>, topK: int, answer: seq<Hit>)
    requires Keyed(c) && ScoredBy(c, scorer, scores) && IsAnswer(c, scorer, topK, answer)
    ensures Answers(c, scores, topK, answer)
  {
    AnswerFacts(c, scorer, scores, topK, answer);
    forall i | 0 <= i < |answer| ensures |Ahead(scores, answer[i].item.id)| == i {
      AheadOfHit(c, scorer, scores, topK, answer, i);
    }
    forall id | id in scores && !Returned(answer, id) ensures topK > 0 && |Ahead(scores, id)| >= topK {
      AheadOfOthers(c, scorer, scores, topK, answer, id);
    }
    hide Ahead;
  }

  /** A keyword search returns exactly the items with a positive score that fewer than `topK` such items
      are ahead of, each at the place that their number says. */
  lemma KeywordReturnsExactly(c: Collection, query: string, keyword: (string, string) -> real, topK: int, answer: seq<Hit>)
    requires Keyed(c) && IsAnswer(c, KeywordScorer(query, keyword), topK, answer)
    ensures Answers(c, KeywordScores(c, query, keyword), topK, answer)
  {
    ReturnedExactly(c, KeywordScorer(query, keyword), KeywordScores(c, query, keyword), topK, answer);
  }

  /** A vector search does so with the items whose vector has a cosine with the query. */
  lemma CosineReturnsExactly(c: Collection, query: seq<real>, cosine: (seq<real>, seq<real>) -> Option<real>, topK: int,
                             answer: seq<Hit>)
    requires Keyed(c) && IsAnswer(c, CosineScorer(query, cosine), topK, answer)
    ensures Answers(c, CosineScores(c, query, cosine), topK, answer)
  {
    ReturnedExactly(c, CosineScorer(query, cosine), CosineScores(c, query, cosine), topK, answer);
  }

  // ---- what a search hands out ----

  /** A hit as it is handed out: the stored row itself, with the array it holds. */
  datatype RowHit = RowHit(item: Row, score: real)

  function HitValues(hits: seq<RowHit>): seq<Hit>
    reads set h | h in hits && h.item.vector != null :: h.item.vector
  {
    seq(|hits|, i requires 0 <= i < |hits|
                  reads set h | h in hits && h.item.vector != null :: h.item.vector
                => Hit(Value(hits[i].item), hits[i].score))
  }

  /** The hits are rows of the collection, so they share its arrays. */
  predicate Shared(c: map<string, Row>, hits: seq<RowHit>) {
    forall h | h in hits :: h.item.id in c && c[h.item.id] == h.item
  }

  /** Ranks a collection and hands out its rows. */
  method RankRows(c: map<string, Row>, scorer: Scorer, topK: int) returns (hits: seq<RowHit>)
    requires KeyedRows(c)
    ensures IsAnswer(Values(c), scorer, topK, HitValues(hits)) && Shared(c, hits)
  {
    var ranked := Rank(Values(c), scorer, topK);
    RankedAreStored(c, scorer, topK, ranked);
    hide IsAnswer, Values, Value;
    hits := seq(|ranked|, i requires 0 <= i < |ranked| && ranked[i].item.id in c
                          => RowHit(c[ranked[i].item.id], ranked[i].score));
    assert forall i | 0 <= i < |ranked| :: Value(hits[i].item) == ranked[i].item && hits[i].score == ranked[i].score;
    assert HitValues(hits) == ranked;
  }

  lemma RankedAreStored(c: map<string, Row>, scorer: Scorer, topK: int, ranked: seq<Hit>)
    requires KeyedRows(c) && IsAnswer(Values(c), scorer, topK, ranked)
    ensures forall i | 0 <= i < |ranked| ::
              var id := ranked[i].item.id;
              id in c && c[id].id == id && Value(c[id]) == ranked[i].item
  {
    forall i | 0 <= i < |ranked|
      ensures var id := ranked[i].item.id;
              id in c && Value(c[id]) == ranked[i].item
    {
      assert ranked[i] in ranked;
      assert IsHit(Values(c), scorer, ranked[i]);
    }
  }

  class MemoryVectorStore {
    var collections: map<string, map<string, Row>>

    ghost predicate Valid()
      reads this
    {
      forall n | n in collections :: KeyedRows(collections[n])
    }

    /** The arrays that the store holds. */
    ghost function Held(): set<object>
      reads this
    {
      ArraysOf(collections)
    }

    /** The contents as values. */
    ghost function View(): map<string, Collection>
      reads this, Held()
    {
      ViewOf(collections)
    }

    constructor ()
      ensures Valid() && Held() == {} && View() == map[]
    {
      collections := map[];
    }

    /** Each vector is copied: afterwards the store holds only arrays it already held or has just
        allocated, none that the caller passed in. */
    method Upsert(collection: string, items: seq<Row>)
      requires Valid()
      modifies this
      ensures Valid() && fresh(Held() - old(Held()))
      ensures View() == old(View())[collection :=
                Stored(Lookup(old(View()), collection), old(ValuesOf(items)))]
    {
      hide Stored, Values, ValuesOf, ViewOf, Lookup, Arrays, ArraysOf;
      var c: map<string, Row> := if collection in collections then collections[collection] else map[];
      LookupIs(collections, collection);
      HeldByOne(collections, collection);
      HeldIsAllocated(collections);
      ghost var before, view := collections, ViewOf(collections);
      c := StoreAll(c, items);
      assert ViewOf(before) == view;
      ViewPut(before, collection, c);
      HeldAfterPut(before, collection, c);
      NoArray(this, before[collection := c]);
      collections := collections[collection := c];
    }

    method Search(collection: string, vector: seq<real>, topK: int,
                  cosine: (seq<real>, seq<real>) -> Option<real>) returns (hits: seq<RowHit>)
      requires Valid()
      ensures collection !in collections ==> hits == []
      ensures collection in collections ==>
                IsAnswer(View()[collection], CosineScorer(vector, cosine), topK, HitValues(hits))
                && Shared(collections[collection], hits)
    {
      if collection !in collections {
        return [];
      }
      hits := RankRows(collections[collection], CosineScorer(vector, cosine), topK);
    }

    method SearchKeyword(collection: string, query: string, topK: int,
                         keyword: (string, string) -> real) returns (hits: seq<RowHit>)
      requires Valid()
      ensures collection !in collections ==> hits == []
      ensures collection in collections ==>
                IsAnswer(View()[collection], KeywordScorer(query, keyword), topK, HitValues(hits))
                && Shared(collections[collection], hits)
    {
      if collection !in collections {
        return [];
      }
      hits := RankRows(collections[collection], KeywordScorer(query, keyword), topK);
    }

    method Delete(collection: string, documentId: string)
      requires Valid()
      modifies this
      ensures Valid() && Held() <= old(Held())
      ensures View() == if collection !in old(View()) then old(View()) else old(View())[collection :=
                Without(old(View())[collection], documentId)]
    {
      if collection !in collections {
        return;
      }
      var c := WithoutDocument(collections[collection], documentId);
      ValuesWithout(collections[collection], documentId);
      LookupIs(collections, collection);
      ViewPut(collections, collection, c);
      HeldAfterPut(collections, collection, c);
      HeldByOne(collections, collection);
      assert Arrays(c) <= Arrays(collections[collection]);
      NoArray(this, collections[collection := c]);
      hide Values, Without, Arrays, ArraysOf, ViewOf;
      collections := collections[collection := c];
    }

    method DropCollection(collection: string)
      requires Valid()
      modifies this
      ensures Valid() && Held() <= old(Held())
      ensures View() == old(View()) - {collection}
    {
      collections := collections - {collection};
    }
  }

  lemma HeldByOne(cs: map<string, map<string, Row>>, n: string)
    ensures n in cs ==> Arrays(cs[n]) <= ArraysOf(cs)
    ensures Arrays(map[]) == {}
  {
  }

  lemma HeldIsAllocated(cs: map<string, map<string, Row>>)
    ensures forall o | o in ArraysOf(cs) :: allocated(o)
  {
  }

  lemma NoArray(s: MemoryVectorStore, cs: map<string, map<string, Row>>)
    ensures s !in ArraysOf(cs)
  {
  }

  lemma HeldAfterPut(cs: map<string, map<string, Row>>, n: string, c: map<string, Row>)
    ensures ArraysOf(cs[n := c]) <= ArraysOf(cs) + Arrays(c)
  {
    hide Arrays;
  }

  // ---- who can reach the contents ----

  /** What a write through a reference to an array does: it reaches exactly the rows that hold it. */
  function Written(it: Item, hit: bool, i: nat, x: real): Item {
    if hit && it.vector.Some? && i < |it.vector.value| then it.(vector := Some(it.vector.value[i := x])) else it
  }

  predicate HeldBy(r: Row, a: array<real>) {
    r.vector == a
  }

  /** The view `v` is `w` with the write carried out in the vectors of the rows that hold the array. */
  predicate ReachesHolders(cs: map<string, map<string, Row>>, v: map<string, Collection>, w: map<string, Collection>,
                           a: array<real>, i: nat, x: real)
  {
    && v.Keys == w.Keys == cs.Keys && (forall n | n in cs :: v[n].Keys == w[n].Keys == cs[n].Keys)
    && (forall n, id | n in cs && id in cs[n] :: v[n][id] == Written(w[n][id], HeldBy(cs[n][id], a), i, x))
  }

  /** A write to an array changes exactly the vectors of the rows that hold it, so it changes the
      contents exactly if some row does and the number is a new one. */
  method WriteThrough(s: MemoryVectorStore, a: array<real>, i: nat, x: real)
    requires s.Valid() && i < a.Length
    modifies a
    ensures s.Valid() && s.Held() == old(s.Held())
    ensures ReachesHolders(s.collections, s.View(), old(s.View()), a, i, x)
    ensures s.View() == old(s.View()) <==> a !in s.Held() || x == old(a[i])
  {
    hide ViewOf, ArraysOf, KeyedRows, RowsWere, ReachesHolders;
    NoArray(s, s.collections);
    RowsAre(s.collections, a);
    ghost var cs, before, was := s.collections, s.View(), a[..];
    a[i] := x;
    ContentsWritten(cs, before, a, was, i, x);
  }

  lemma ViewShape(cs: map<string, map<string, Row>>)
    ensures ViewOf(cs).Keys == cs.Keys
    ensures forall n | n in cs :: ViewOf(cs)[n].Keys == cs[n].Keys
    ensures forall n, id | n in cs && id in cs[n] :: ViewOf(cs)[n][id] == Value(cs[n][id])
  {
    hide Value;
  }

  /** The rows were these values when the array was `was`. This reads no number of that array, so it goes
      on holding while the array is written. */
  ghost predicate RowsWere(cs: map<string, map<string, Row>>, before: map<string, Collection>, a: array<real>,
                           was: seq<real>)
    reads ArraysOf(cs) - {a}
  {
    && before.Keys == cs.Keys && (forall n | n in cs :: before[n].Keys == cs[n].Keys)
    && forall n, id | n in cs && id in cs[n] ::
         var r := cs[n][id];
         (r.vector != null ==> r.vector in Arrays(cs[n]))
         && before[n][id] == Item(r.id, r.documentId, r.content,
                                  if r.vector == null then None
                                  else if r.vector == a then Some(was) else Some(r.vector[..]))
  }

  lemma RowsAre(cs: map<string, map<string, Row>>, a: array<real>)
    ensures RowsWere(cs, ViewOf(cs), a, a[..])
  {
    ViewShape(cs);
    hide ViewOf;
  }

  lemma RowsNow(cs: map<string, map<string, Row>>, before: map<string, Collection>, a: array<real>, was: seq<real>,
                i: nat, x: real)
    requires i < |was| && a[..] == was[i := x] && RowsWere(cs, before, a, was)
    ensures ReachesHolders(cs, ViewOf(cs), before, a, i, x)
  {
    ViewShape(cs);
    hide ViewOf, ArraysOf, Arrays;
  }

  lemma ContentsWritten(cs: map<string, map<string, Row>>, before: map<string, Collection>, a: array<real>,
                        was: seq<real>, i: nat, x: real)
    requires i < |was| && a[..] == was[i := x] && RowsWere(cs, before, a, was)
    ensures ViewOf(cs) == before <==> a !in ArraysOf(cs) || x == was[i]
    ensures ReachesHolders(cs, ViewOf(cs), before, a, i, x)
  {
    RowsNow(cs, before, a, was, i, x);
    if a in ArraysOf(cs) && x != was[i] {
      HolderChanges(cs, before, a, was, i, x);
    } else {
      NothingChanges(cs, before, a, was, i, x);
    }
  }

  lemma HolderChanges(cs: map<string, map<string, Row>>, before: map<string, Collection>, a: array<real>,
                      was: seq<real>, i: nat, x: real)
    requires i < |was| && RowsWere(cs, before, a, was) && ReachesHolders(cs, ViewOf(cs), before, a, i, x)
    requires a in ArraysOf(cs) && x != was[i]
    ensures ViewOf(cs) != before
  {
    var n, id :| n in cs && id in cs[n] && HeldBy(cs[n][id], a);
    hide ViewOf;
    assert before[n][id].vector.value[i] == was[i] && ViewOf(cs)[n][id].vector.value[i] == x;
  }

  lemma NothingChanges(cs: map<string, map<string, Row>>, before: map<string, Collection>, a: array<real>,
                       was: seq<real>, i: nat, x: real)
    requires i < |was| && RowsWere(cs, before, a, was) && ReachesHolders(cs, ViewOf(cs), before, a, i, x)
    requires a !in ArraysOf(cs) || x == was[i]
    ensures ViewOf(cs) == before
  {
    hide ViewOf;
    assert x == was[i] ==> was[i := x] == was;
    forall n, id | n in cs && id in cs[n]
      ensures ViewOf(cs)[n][id] == before[n][id]
    {
      if HeldBy(cs[n][id], a) {
        assert a in Arrays(cs[n]);
      }
    }
    hide Written, Arrays, RowsWere;
    SameRows(ViewOf(cs), before);
  }

  lemma SameRows(v: map<string, Collection>, w: map<string, Collection>)
    requires v.Keys == w.Keys && forall n | n in v :: v[n].Keys == w[n].Keys
    requires forall n, id | n in v && id in v[n] :: v[n][id] == w[n][id]
    ensures v == w
  {
    assert forall n | n in v :: v[n] == w[n];
  }

  /** A caller that goes on writing to an array it passed in, or to any that the store did not hold,
      does not change what was stored. */
  method UpsertThenWrite(s: MemoryVectorStore, collection: string, items: seq<Row>, a: array<real>, i: nat, x: real)
    requires s.Valid() && a !in s.Held() && i < a.Length
    modifies s, a
    ensures s.Valid()
    ensures s.View() == old(s.View())[collection :=
              Stored(Lookup(old(s.View()), collection), old(ValuesOf(items)))]
  {
    hide Stored, Values, ValuesOf, ViewOf, Lookup, ArraysOf, Written;
    s.Upsert(collection, items);
    WriteThrough(s, a, i, x);
  }

  /** A caller that writes to the vector of a hit does: the stored vector changes with it. */
  method SearchThenWrite(s: MemoryVectorStore, collection: string, vector: seq<real>, topK: int,
                         cosine: (seq<real>, seq<real>) -> Option<real>, k: nat, i: nat, x: real)
    returns (hits: seq<RowHit>)
    requires s.Valid() && collection in s.collections
    modifies s.Held()
    ensures s.collections == old(s.collections)
    ensures k < |hits| && hits[k].item.vector != null && i < hits[k].item.vector.Length ==>
              var id := hits[k].item.id;
              id in old(s.View())[collection] && id in s.View()[collection]
              && s.View()[collection][id] == Written(old(s.View())[collection][id], true, i, x)
  {
    hide ViewOf, ArraysOf, Arrays, KeyedRows, IsAnswer, HitValues, Written;
    HeldIsAllocated(s.collections);
    NoArray(s, s.collections);
    hits := s.Search(collection, vector, topK, cosine);
    if k < |hits| && hits[k].item.vector != null && i < hits[k].item.vector.Length {
      var r := hits[k].item;
      assert hits[k] in hits;
      HolderIsHeld(s.collections, collection, r.id);
      WriteThrough(s, r.vector, i, x);
    }
  }

  lemma HolderIsHeld(cs: map<string, map<string, Row>>, n: string, id: string)
    requires n in cs && id in cs[n] && cs[n][id].vector != null
    ensures cs[n][id].vector in ArraysOf(cs)
  {
    assert cs[n][id].vector in Arrays(cs[n]);
  }
}
