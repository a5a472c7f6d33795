/**
 * Which examples `buildExamples` emits for a sentence, and with which
 * labels: the visiting order of token pairs, the `headsOnly` filter and the
 * directed / undirected labelling policy, as a list of build requests.
 */
module PairPolicy {
  import opened Wrappers
  import opened Sentence
  import opened EdgeCategory
  import opened Folds

  /** Token positions `i < j` of a candidate pair. */
  datatype Pair = Pair(i: nat, j: nat)

  /** The pairs `(i, j)` with `i < j < jEnd`, in the order the inner loop visits them. */
  function RowPairs(i: nat, jEnd: nat): (r: seq<Pair>)
    ensures forall p :: p in r ==> p.i == i < p.j < jEnd
  {
    if jEnd <= i + 1 then [] else RowPairs(i, jEnd - 1) + [Pair(i, jEnd - 1)]
  }

  /** The pairs of the first `iEnd` rows of the outer loop over a sentence of `n` tokens. */
  function PairsUpTo(n: nat, iEnd: nat): (r: seq<Pair>)
    ensures forall p :: p in r ==> p.i < iEnd && p.i < p.j < n
  {
    if iEnd == 0 then [] else PairsUpTo(n, iEnd - 1) + RowPairs(iEnd - 1, n)
  }

  /** The pairs `for i in range(n - 1): for j in range(i + 1, n)` visits. */
  function Pairs(n: nat): seq<Pair>
  {
    if n == 0 then [] else PairsUpTo(n, n - 1)
  }

  predicate LexLess(p: Pair, q: Pair)
  {
    p.i < q.i || (p.i == q.i && p.j < q.j)
  }

  lemma {:induction false} RowPairsComplete(i: nat, jEnd: nat, j: nat)
    requires i < j < jEnd
    ensures Pair(i, j) in RowPairs(i, jEnd)
  {
    if j < jEnd - 1 { RowPairsComplete(i, jEnd - 1, j); }
  }

  lemma {:induction false} RowPairsAscending(i: nat, jEnd: nat)
    ensures forall a, b :: 0 <= a < b < |RowPairs(i, jEnd)| ==>
              RowPairs(i, jEnd)[a].j < RowPairs(i, jEnd)[b].j
  {
    if jEnd > i + 1 { RowPairsAscending(i, jEnd - 1); }
  }

  lemma {:induction false} PairsUpToComplete(n: nat, iEnd: nat, p: Pair)
    requires p.i < iEnd && p.i < p.j < n
    ensures p in PairsUpTo(n, iEnd)
  {
    if p.i < iEnd - 1 {
      PairsUpToComplete(n, iEnd - 1, p);
    } else {
      RowPairsComplete(p.i, n, p.j);
    }
  }

  lemma {:induction false} PairsUpToAscending(n: nat, iEnd: nat)
    ensures forall a, b :: 0 <= a < b < |PairsUpTo(n, iEnd)| ==>
              LexLess(PairsUpTo(n, iEnd)[a], PairsUpTo(n, iEnd)[b])
  {
    if iEnd > 0 {
      var front, row := PairsUpTo(n, iEnd - 1), RowPairs(iEnd - 1, n);
      PairsUpToAscending(n, iEnd - 1);
      RowPairsAscending(iEnd - 1, n);
      var all := front + row;
      forall a, b | 0 <= a < b < |all| ensures LexLess(all[a], all[b]) {
        if b >= |front| && a < |front| {
          assert all[a] in front && all[b] in row;
        } else if a >= |front| {
          assert all[a] == row[a - |front|] && all[b] == row[b - |front|];
        }
      }
    }
  }

  /**
   * The outer and inner loops visit every pair `i < j < n` and nothing else,
   * in strictly increasing lexicographic order, so each pair exactly once.
   */
  lemma PairsEnumeration(n: nat)
    ensures forall p :: p in Pairs(n) <==> p.i < p.j < n
    ensures forall a, b :: 0 <= a < b < |Pairs(n)| ==> LexLess(Pairs(n)[a], Pairs(n)[b])
  {
    if n > 0 {
      var last: nat := n - 1;
      var all := PairsUpTo(n, last);
      assert Pairs(n) == all;
      forall p: Pair ensures p in all <==> p.i < p.j < n {
        if p.i < p.j < n { PairsUpToComplete(n, last, p); }
      }
      PairsUpToAscending(n, last);
    }
  }

  /** One `buildExample(source, target, ..., category, ...)` whose result is kept. */
  datatype Request = Request(source: Token, target: Token, category: string, merged: bool)

  /** The entity-head table covers every token whenever the `headsOnly` filter reads it. */
  ghost predicate HeadsKnown(cfg: Config, sg: SentenceGraph)
  {
    forall t :: cfg.styles.headsOnly && t in sg.tokens ==> t in sg.entityHead
  }

  /** The `headsOnly` filter: both tokens are entity heads, or the style is off. */
  predicate Eligible(cfg: Config, sg: SentenceGraph, a: Token, b: Token)
    requires cfg.styles.headsOnly ==> a in sg.entityHead && b in sg.entityHead
  {
    !cfg.styles.headsOnly || (sg.entityHead[a] && sg.entityHead[b])
  }

  /** The label of the oriented pair `(a, b)` in directed style. */
  function DirectedLabel(sg: SentenceGraph, types: seq<string>, a: Token, b: Token): string
  {
    if (a, b) in sg.interactions then
      match Category(sg.interactions[(a, b)], types)
      case Some(c) => c
      case None => "neg"
    else "neg"
  }

  /** The edges of both orientations, `(a, b)` first. */
  function PooledEdges(sg: SentenceGraph, a: Token, b: Token): seq<Edge>
  {
    (if (a, b) in sg.interactions then sg.interactions[(a, b)] else [])
    + (if (b, a) in sg.interactions then sg.interactions[(b, a)] else [])
  }

  /** The label of the pair `{a, b}` in undirected style. */
  function UndirectedLabel(sg: SentenceGraph, types: seq<string>, a: Token, b: Token): string
  {
    var edges := PooledEdges(sg, a, b);
    if |edges| > 0 && Category(edges, types).Some? then Category(edges, types).value else "neg"
  }

  /**
   * The requests of the pair `(i, j)`: none, forward then reverse, or one
   * merged. The loops only visit pairs `i < j` of the sentence; any other
   * pair has no requests.
   */
  function PairRequests(cfg: Config, sg: SentenceGraph, p: Pair): seq<Request>
    requires HeadsKnown(cfg, sg)
  {
    if !(p.i < p.j < |sg.tokens|) then [] else
    var tI, tJ := sg.tokens[p.i], sg.tokens[p.j];
    if !Eligible(cfg, sg, tI, tJ) then []
    else if cfg.styles.directed then
      [Request(tI, tJ, DirectedLabel(sg, cfg.types, tI, tJ), false),
       Request(tJ, tI, DirectedLabel(sg, cfg.types, tJ, tI), false)]
    else
      [Request(tI, tJ, UndirectedLabel(sg, cfg.types, tI, tJ), true)]
  }

  ghost predicate PairsWithin(ps: seq<Pair>, n: nat)
  {
    forall p :: p in ps ==> p.i < p.j < n
  }

  /** `PairRequests` as a function of the pair alone. */
  function PairStep(cfg: Config, sg: SentenceGraph): Pair -> seq<Request>
    requires HeadsKnown(cfg, sg)
  {
    p => PairRequests(cfg, sg, p)
  }

  /** The requests of the pairs `ps`, visited in order. */
  function Requests(cfg: Config, sg: SentenceGraph, ps: seq<Pair>): seq<Request>
    requires HeadsKnown(cfg, sg)
  {
    FlatMap(PairStep(cfg, sg), ps)
  }

  /** Every example `buildExamples` emits for the sentence, in emission order. */
  function Plan(cfg: Config, sg: SentenceGraph): seq<Request>
    requires HeadsKnown(cfg, sg)
  {
    Requests(cfg, sg, Pairs(|sg.tokens|))
  }

  /** The pairs among `ps` that pass the `headsOnly` filter, in order. */
  function EligiblePairs(cfg: Config, sg: SentenceGraph, ps: seq<Pair>): (r: seq<Pair>)
    requires HeadsKnown(cfg, sg) && PairsWithin(ps, |sg.tokens|)
    ensures PairsWithin(r, |sg.tokens|)
  {
    if |ps| == 0 then []
    else
      var p := ps[|ps| - 1];
      EligiblePairs(cfg, sg, ps[..|ps| - 1])
      + (if Eligible(cfg, sg, sg.tokens[p.i], sg.tokens[p.j]) then [p] else [])
  }

  lemma RequestsConcat(cfg: Config, sg: SentenceGraph, a: seq<Pair>, b: seq<Pair>)
    requires HeadsKnown(cfg, sg)
    ensures Requests(cfg, sg, a + b) == Requests(cfg, sg, a) + Requests(cfg, sg, b)
  {
    FlatMapConcat(PairStep(cfg, sg), a, b);
  }

  lemma {:induction false} EligiblePairsMembers(cfg: Config, sg: SentenceGraph, ps: seq<Pair>, p: Pair)
    requires HeadsKnown(cfg, sg) && PairsWithin(ps, |sg.tokens|)
    ensures p in EligiblePairs(cfg, sg, ps) <==>
            p in ps && Eligible(cfg, sg, sg.tokens[p.i], sg.tokens[p.j])
  {
    if |ps| > 0 {
      var init := ps[..|ps| - 1];
      EligiblePairsMembers(cfg, sg, init, p);
      assert ps == init + [ps[|ps| - 1]];
    }
  }

  /**
   * Directed style: exactly two examples per eligible pair, in pair order,
   * the first from `(tI, tJ)` and the second from `(tJ, tI)`, each labelled
   * with its own direction's category or "neg".
   */
  lemma {:induction false} DirectedRequests(cfg: Config, sg: SentenceGraph, ps: seq<Pair>)
    requires HeadsKnown(cfg, sg) && PairsWithin(ps, |sg.tokens|) && cfg.styles.directed
    ensures var e := EligiblePairs(cfg, sg, ps);
            var rs := Requests(cfg, sg, ps);
            |rs| == 2 * |e| &&
            forall m :: 0 <= m < |e| ==>
              var tI, tJ := sg.tokens[e[m].i], sg.tokens[e[m].j];
              rs[2 * m] == Request(tI, tJ, DirectedLabel(sg, cfg.types, tI, tJ), false) &&
              rs[2 * m + 1] == Request(tJ, tI, DirectedLabel(sg, cfg.types, tJ, tI), false)
  {
    if |ps| > 0 {
      var init, p := ps[..|ps| - 1], ps[|ps| - 1];
      DirectedRequests(cfg, sg, init);
      assert Requests(cfg, sg, ps) == Requests(cfg, sg, init) + PairRequests(cfg, sg, p);
      assert EligiblePairs(cfg, sg, ps) ==
             EligiblePairs(cfg, sg, init) + (if Eligible(cfg, sg, sg.tokens[p.i], sg.tokens[p.j]) then [p] else []);
    }
  }

  /**
   * Undirected style: exactly one example per eligible pair, in pair order,
   * built from `(tI, tJ)`, merged with the reverse build, and labelled from
   * the edges of both orientations.
   */
  lemma {:induction false} UndirectedRequests(cfg: Config, sg: SentenceGraph, ps: seq<Pair>)
    requires HeadsKnown(cfg, sg) && PairsWithin(ps, |sg.tokens|) && !cfg.styles.directed
    ensures var e := EligiblePairs(cfg, sg, ps);
            var rs := Requests(cfg, sg, ps);
            |rs| == |e| &&
            forall m :: 0 <= m < |e| ==>
              var tI, tJ := sg.tokens[e[m].i], sg.tokens[e[m].j];
              rs[m] == Request(tI, tJ, UndirectedLabel(sg, cfg.types, tI, tJ), true)
  {
    if |ps| > 0 {
      var init, p := ps[..|ps| - 1], ps[|ps| - 1];
      UndirectedRequests(cfg, sg, init);
      assert Requests(cfg, sg, ps) == Requests(cfg, sg, init) + PairRequests(cfg, sg, p);
      assert EligiblePairs(cfg, sg, ps) ==
             EligiblePairs(cfg, sg, init) + (if Eligible(cfg, sg, sg.tokens[p.i], sg.tokens[p.j]) then [p] else []);
    }
  }

  /** Every request of a plan is about two tokens of the sentence that pass the filter. */
  lemma {:induction false} RequestsEndpoints(cfg: Config, sg: SentenceGraph, ps: seq<Pair>)
    requires HeadsKnown(cfg, sg)
    ensures forall r :: r in Requests(cfg, sg, ps) ==>
              r.source in sg.tokens && r.target in sg.tokens && Eligible(cfg, sg, r.source, r.target)
  {
    if |ps| > 0 {
      RequestsEndpoints(cfg, sg, ps[..|ps| - 1]);
    }
  }

  /**
   * With `headsOnly`, no example involves a token whose entity-head entry is
   * None: a pair with such a token yields nothing in either direction.
   */
  lemma PlanOnlyHeads(cfg: Config, sg: SentenceGraph)
    requires HeadsKnown(cfg, sg) && cfg.styles.headsOnly
    ensures forall r :: r in Plan(cfg, sg) ==>
              r.source in sg.tokens && r.target in sg.tokens &&
              sg.entityHead[r.source] && sg.entityHead[r.target]
  {
    RequestsEndpoints(cfg, sg, Pairs(|sg.tokens|));
  }

  /** The undirected label is the same whichever token of the pair comes first. */
  lemma UndirectedLabelSymmetric(sg: SentenceGraph, types: seq<string>, a: Token, b: Token)
    ensures UndirectedLabel(sg, types, a, b) == UndirectedLabel(sg, types, b, a)
  {
    var x := if (a, b) in sg.interactions then sg.interactions[(a, b)] else [];
    var y := if (b, a) in sg.interactions then sg.interactions[(b, a)] else [];
    PooledCategorySymmetric(x, y, types);
  }

  lemma {:induction false} RowPairsPrefix(i: nat, j: nat, jEnd: nat)
    requires j <= jEnd
    ensures RowPairs(i, j) <= RowPairs(i, jEnd)
    decreases jEnd - j
  {
    if j < jEnd {
      RowPairsPrefix(i, j, jEnd - 1);
    }
  }

  lemma {:induction false} PairsUpToPrefix(n: nat, a: nat, b: nat)
    requires a <= b
    ensures PairsUpTo(n, a) <= PairsUpTo(n, b)
    decreases b - a
  {
    if a < b {
      PairsUpToPrefix(n, a, b - 1);
    }
  }

  lemma RequestsPrefix(cfg: Config, sg: SentenceGraph, ps: seq<Pair>, qs: seq<Pair>)
    requires HeadsKnown(cfg, sg) && ps <= qs
    ensures Requests(cfg, sg, ps) <= Requests(cfg, sg, qs)
  {
    FlatMapPrefix(PairStep(cfg, sg), ps, qs);
  }

  /** The inner loop's step: visiting `(i, j)` appends that pair's requests to the row's. */
  lemma RowRequestsStep(cfg: Config, sg: SentenceGraph, i: nat, j: nat, k: nat)
    requires HeadsKnown(cfg, sg) && i < j < |sg.tokens| && k == j + 1
    ensures Requests(cfg, sg, RowPairs(i, k)) == Requests(cfg, sg, RowPairs(i, j)) + PairRequests(cfg, sg, Pair(i, j))
  {
    var row := RowPairs(i, j);
    assert RowPairs(i, k) == row + [Pair(i, j)];
    assert (row + [Pair(i, j)])[..|row|] == row;
  }

  /** The outer loop's step: row `i` appends its requests to those of the rows before. */
  lemma RowsRequestsStep(cfg: Config, sg: SentenceGraph, i: nat)
    requires HeadsKnown(cfg, sg) && i < |sg.tokens|
    ensures Requests(cfg, sg, PairsUpTo(|sg.tokens|, i + 1)) ==
            Requests(cfg, sg, PairsUpTo(|sg.tokens|, i)) + Requests(cfg, sg, RowPairs(i, |sg.tokens|))
  {
    RequestsConcat(cfg, sg, PairsUpTo(|sg.tokens|, i), RowPairs(i, |sg.tokens|));
  }

  /** The requests of the first rows are a prefix of the whole plan. */
  lemma RowsPrefixOfPlan(cfg: Config, sg: SentenceGraph, iEnd: nat)
    requires HeadsKnown(cfg, sg) && iEnd < |sg.tokens|
    ensures Requests(cfg, sg, PairsUpTo(|sg.tokens|, iEnd)) <= Plan(cfg, sg)
  {
    RowsPrefixOfPairs(|sg.tokens|, iEnd);
    RequestsPrefix(cfg, sg, PairsUpTo(|sg.tokens|, iEnd), Pairs(|sg.tokens|));
  }

  lemma RowsPrefixOfPairs(n: nat, iEnd: nat)
    requires iEnd < n
    ensures PairsUpTo(n, iEnd) <= Pairs(n)
  {
    var last: nat := n - 1;
    assert Pairs(n) == PairsUpTo(n, last);
    PairsUpToPrefix(n, iEnd, last);
  }

  /** Once the outer loop has passed its last row, its requests are the whole plan. */
  lemma AllRowsArePlan(cfg: Config, sg: SentenceGraph, iEnd: nat)
    requires HeadsKnown(cfg, sg) && iEnd == (if |sg.tokens| == 0 then 0 else |sg.tokens| - 1)
    ensures Requests(cfg, sg, PairsUpTo(|sg.tokens|, iEnd)) == Plan(cfg, sg)
  {
  }
}
