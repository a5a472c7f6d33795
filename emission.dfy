/**
 * What `buildExample` and `buildExamples` compute, as values: the state of
 * the two registries threaded through every build, and the examples that
 * come out, or the failure that stops the sentence.
 */
module Emission {
  import opened Wrappers
  import opened Sentence
  import opened TokenIds
  import opened IdRegistry
  import opened PairPolicy
  import opened Features
  import opened Folds

  /** The feature and class registries, as values. */
  datatype State = State(features: Registry, classes: Registry)

  /**
   * One `buildExample(t1, t2, ..., category, index)`: its feature writes
   * register their names first; a malformed token id then fails the build,
   * leaving the class registry as it was; otherwise the class is looked up
   * (registering `category` unless the style is "binary").
   */
  function Build(cfg: Config, sg: SentenceGraph, paths: PathMap, t1: Token, t2: Token,
                 category: string, index: string, s: State): (State, Result<Example, BuildError>)
  {
    var ws := FeatureWrites(cfg, sg, paths, t1, t2);
    var features := RegisterAll(s.features, WriteNames(ws));
    RegisteredAfter(s.features, ws);
    match Orientation(t1, t2)
    case Err(e) => (State(features, s.classes), Err(e))
    case Ok(extra) =>
      var classes := if cfg.styles.binary then s.classes else Register(s.classes, category);
      var classId := ClassIdOf(cfg.styles.binary, category, classes.ids);
      (State(features, classes),
       Ok(Example(ExampleId(sg.sentenceId, index), classId, Vector(ws, features.ids), extra)))
  }

  /**
   * The example of one request, numbered `index`: a plain build, or for a
   * merged (undirected) request the build of `(source, target)` whose features
   * are then overwritten by those of a reverse build labelled "temp".
   */
  function Serve(cfg: Config, sg: SentenceGraph, paths: PathMap, q: Request, index: nat, s: State)
    : (State, Result<Example, BuildError>)
  {
    var forward := Build(cfg, sg, paths, q.source, q.target, q.category, DecimalString(index), s);
    if !q.merged || forward.1.Err? then forward
    else
      var reverse := Build(cfg, sg, paths, q.target, q.source, "temp", "temp", forward.0);
      if reverse.1.Err? then reverse
      else (reverse.0, Ok(forward.1.value.(features := forward.1.value.features + reverse.1.value.features)))
  }

  /** The registries and the examples so far, or the failure that ended the run. */
  datatype Outcome = Outcome(state: State, examples: Result<seq<Example>, BuildError>)

  /** Serving one more request; the index is the number of examples emitted so far. */
  function Next(cfg: Config, sg: SentenceGraph, paths: PathMap, o: Outcome, q: Request): Outcome
  {
    match o.examples
    case Err(_) => o
    case Ok(done) =>
      var served := Serve(cfg, sg, paths, q, |done|, o.state);
      if served.1.Err? then Outcome(served.0, Err(served.1.error))
      else Outcome(served.0, Ok(done + [served.1.value]))
  }

  /** `Next` as a function of the outcome so far and the request alone. */
  function Step(cfg: Config, sg: SentenceGraph, paths: PathMap): (Outcome, Request) -> Outcome
  {
    (o, q) => Next(cfg, sg, paths, o, q)
  }

  /** Serving the requests `qs` one after the other, from `o`. */
  function Continue(cfg: Config, sg: SentenceGraph, paths: PathMap, o: Outcome, qs: seq<Request>): Outcome
  {
    FoldLeft(Step(cfg, sg, paths), o, qs)
  }

  /** `buildExamples` on a sentence whose requests are `qs`, from the registries `s`. */
  function Run(cfg: Config, sg: SentenceGraph, paths: PathMap, qs: seq<Request>, s: State): Outcome
  {
    Continue(cfg, sg, paths, Outcome(s, Ok([])), qs)
  }

  /** Both registries are well-formed, with first ids `ff` (features) and `cf` (classes). */
  ghost predicate StateWellFormed(s: State, ff: nat, cf: nat)
  {
    IdRegistry.WellFormed(s.features, ff) && IdRegistry.WellFormed(s.classes, cf)
  }

  /** No id handed out in `s` is lost or changed in `s'`. */
  ghost predicate Grows(s: State, s': State)
  {
    Extends(s.features.ids, s'.features.ids) && Extends(s.classes.ids, s'.classes.ids)
  }

  /**
   * `x` is the example number `k`, built for the request `q`, read against the
   * registries `s`: its id, its orientation, its class and its features.
   */
  ghost predicate Describes(cfg: Config, sg: SentenceGraph, paths: PathMap, q: Request, k: nat, x: Example, s: State)
  {
    && x.id == ExampleId(sg.sentenceId, DecimalString(k))
    && Orientation(q.source, q.target) == Ok(x.extra)
    && (cfg.styles.binary ==> x.classId == if q.category != "neg" then 1 else -1)
    && (!cfg.styles.binary ==> q.category in s.classes.ids && x.classId == s.classes.ids[q.category])
    && var forward := FeatureWrites(cfg, sg, paths, q.source, q.target);
       var reverse := FeatureWrites(cfg, sg, paths, q.target, q.source);
       && Registered(forward, s.features.ids)
       && (q.merged ==> Registered(reverse, s.features.ids))
       && x.features == if q.merged then Vector(forward, s.features.ids) + Vector(reverse, s.features.ids)
                        else Vector(forward, s.features.ids)
  }

  lemma DescribesStable(cfg: Config, sg: SentenceGraph, paths: PathMap, q: Request, k: nat, x: Example, s: State, s': State)
    requires Describes(cfg, sg, paths, q, k, x, s) && Grows(s, s')
    ensures Describes(cfg, sg, paths, q, k, x, s')
  {
    ApplyStable(map[], FeatureWrites(cfg, sg, paths, q.source, q.target), s.features.ids, s'.features.ids);
    if q.merged {
      ApplyStable(map[], FeatureWrites(cfg, sg, paths, q.target, q.source), s.features.ids, s'.features.ids);
    }
  }

  /** A build keeps both registries well-formed, loses no id, and fails exactly on a malformed token id. */
  lemma BuildSpec(cfg: Config, sg: SentenceGraph, paths: PathMap, t1: Token, t2: Token,
                  category: string, index: string, s: State, ff: nat, cf: nat)
    requires StateWellFormed(s, ff, cf)
    ensures var b := Build(cfg, sg, paths, t1, t2, category, index, s);
            var s', r := b.0, b.1;
            && StateWellFormed(s', ff, cf) && Grows(s, s')
            && Registered(FeatureWrites(cfg, sg, paths, t1, t2), s'.features.ids)
            && (r.Ok? <==> Orientation(t1, t2).Ok?)
            && (r.Ok? ==>
                  && r.value.id == ExampleId(sg.sentenceId, index)
                  && Orientation(t1, t2) == Ok(r.value.extra)
                  && r.value.features == Vector(FeatureWrites(cfg, sg, paths, t1, t2), s'.features.ids)
                  && (cfg.styles.binary ==> r.value.classId == if category != "neg" then 1 else -1)
                  && (!cfg.styles.binary ==> category in s'.classes.ids && r.value.classId == s'.classes.ids[category]))
  {
    var ws := FeatureWrites(cfg, sg, paths, t1, t2);
    RegisterAllSpec(s.features, ff, WriteNames(ws));
    RegisteredAfter(s.features, ws);
    if !cfg.styles.binary {
      RegisterSpec(s.classes, cf, category);
    }
  }

  /** Serving a request: the example is described by the request, and fails exactly on a malformed token id. */
  lemma ServeSpec(cfg: Config, sg: SentenceGraph, paths: PathMap, q: Request, k: nat, s: State, ff: nat, cf: nat)
    requires StateWellFormed(s, ff, cf)
    ensures var served := Serve(cfg, sg, paths, q, k, s);
            var s', r := served.0, served.1;
            && StateWellFormed(s', ff, cf) && Grows(s, s')
            && (r.Ok? <==> Orientation(q.source, q.target).Ok?)
            && (r.Ok? ==> Describes(cfg, sg, paths, q, k, r.value, s'))
  {
    var b := Build(cfg, sg, paths, q.source, q.target, q.category, DecimalString(k), s);
    BuildSpec(cfg, sg, paths, q.source, q.target, q.category, DecimalString(k), s, ff, cf);
    if q.merged && b.1.Ok? {
      MergedSpec(cfg, sg, paths, q, k, s, ff, cf);
    }
  }

  /** The merged case of `ServeSpec`: the reverse "temp" build cannot fail once the forward one succeeded. */
  lemma MergedSpec(cfg: Config, sg: SentenceGraph, paths: PathMap, q: Request, k: nat, s: State, ff: nat, cf: nat)
    requires StateWellFormed(s, ff, cf)
    requires q.merged && Orientation(q.source, q.target).Ok?
    ensures var served := Serve(cfg, sg, paths, q, k, s);
            var s', r := served.0, served.1;
            && StateWellFormed(s', ff, cf) && Grows(s, s')
            && r.Ok? && Describes(cfg, sg, paths, q, k, r.value, s')
  {
    var forward := Build(cfg, sg, paths, q.source, q.target, q.category, DecimalString(k), s);
    BuildSpec(cfg, sg, paths, q.source, q.target, q.category, DecimalString(k), s, ff, cf);
    var s1 := forward.0;
    OrientationSpec(q.source, q.target);
    OrientationSpec(q.target, q.source);
    var reverse := Build(cfg, sg, paths, q.target, q.source, "temp", "temp", s1);
    BuildSpec(cfg, sg, paths, q.target, q.source, "temp", "temp", s1, ff, cf);
    var s2 := reverse.0;
    ApplyStable(map[], FeatureWrites(cfg, sg, paths, q.source, q.target), s1.features.ids, s2.features.ids);
    ExtendsTransitive(s.features.ids, s1.features.ids, s2.features.ids);
    ExtendsTransitive(s.classes.ids, s1.classes.ids, s2.classes.ids);
    assert forward.1.Ok?;
    assert reverse.1.Ok?;
    var x := forward.1.value.(features := forward.1.value.features + reverse.1.value.features);
    assert Serve(cfg, sg, paths, q, k, s) == (s2, Ok(x));
    var fw := FeatureWrites(cfg, sg, paths, q.source, q.target);
    var rw := FeatureWrites(cfg, sg, paths, q.target, q.source);
    assert x.id == ExampleId(sg.sentenceId, DecimalString(k));
    assert Orientation(q.source, q.target) == Ok(x.extra);
    assert cfg.styles.binary ==> x.classId == if q.category != "neg" then 1 else -1;
    assert !cfg.styles.binary ==> q.category in s2.classes.ids && x.classId == s2.classes.ids[q.category];
    assert Registered(fw, s2.features.ids);
    assert Registered(rw, s2.features.ids);
    var mf, mr := forward.1.value.features, reverse.1.value.features;
    assert x.features == mf + mr;
    assert mf == Vector(fw, s2.features.ids);
    assert mr == Vector(rw, s2.features.ids);
  }

  /** A run keeps both registries well-formed and never loses or changes an id. */
  lemma {:induction false} RunState(cfg: Config, sg: SentenceGraph, paths: PathMap, qs: seq<Request>, s: State, ff: nat, cf: nat)
    requires StateWellFormed(s, ff, cf)
    ensures StateWellFormed(Run(cfg, sg, paths, qs, s).state, ff, cf)
    ensures Grows(s, Run(cfg, sg, paths, qs, s).state)
  {
    if |qs| > 0 {
      var init, last := qs[..|qs| - 1], qs[|qs| - 1];
      RunState(cfg, sg, paths, init, s, ff, cf);
      var prev := Run(cfg, sg, paths, init, s);
      if prev.examples.Ok? {
        ServeSpec(cfg, sg, paths, last, |prev.examples.value|, prev.state, ff, cf);
        var o := Run(cfg, sg, paths, qs, s);
        ExtendsTransitive(s.features.ids, prev.state.features.ids, o.state.features.ids);
        ExtendsTransitive(s.classes.ids, prev.state.classes.ids, o.state.classes.ids);
      }
    }
  }

  /** Every request's ends carry token numbers, so none of its builds can fail. */
  predicate AllNumbered(qs: seq<Request>)
  {
    |qs| == 0 || (AllNumbered(qs[..|qs| - 1]) && Orientation(qs[|qs| - 1].source, qs[|qs| - 1].target).Ok?)
  }

  lemma {:induction false} AllNumberedMeans(qs: seq<Request>)
    ensures AllNumbered(qs) <==> forall k :: 0 <= k < |qs| ==> Orientation(qs[k].source, qs[k].target).Ok?
  {
    if AllNumbered(qs) {
      forall k | 0 <= k < |qs| ensures Orientation(qs[k].source, qs[k].target).Ok? {
        AllNumberedAt(qs, k);
      }
    } else {
      var k := FirstUnnumbered(qs);
    }
  }

  lemma {:induction false} AllNumberedAt(qs: seq<Request>, k: nat)
    requires AllNumbered(qs) && k < |qs|
    ensures Orientation(qs[k].source, qs[k].target).Ok?
  {
    if k < |qs| - 1 {
      AllNumberedAt(qs[..|qs| - 1], k);
      assert qs[..|qs| - 1][k] == qs[k];
    }
  }

  /** A request without token numbers, in a sequence that is not all numbered. */
  lemma {:induction false} FirstUnnumbered(qs: seq<Request>) returns (k: nat)
    requires !AllNumbered(qs)
    ensures k < |qs| && !Orientation(qs[k].source, qs[k].target).Ok?
  {
    var init := qs[..|qs| - 1];
    if AllNumbered(init) {
      k := |qs| - 1;
    } else {
      k := FirstUnnumbered(init);
      assert init[k] == qs[k];
    }
  }

  /** A run fails exactly when some request has an end whose id carries no token number. */
  lemma {:induction false} RunFails(cfg: Config, sg: SentenceGraph, paths: PathMap, qs: seq<Request>, s: State, ff: nat, cf: nat)
    requires StateWellFormed(s, ff, cf)
    ensures var o := Run(cfg, sg, paths, qs, s);
            && (o.examples.Ok? <==> AllNumbered(qs))
            && (o.examples.Ok? ==> |o.examples.value| == |qs|)
  {
    if |qs| > 0 {
      var init, last := qs[..|qs| - 1], qs[|qs| - 1];
      RunFails(cfg, sg, paths, init, s, ff, cf);
      RunState(cfg, sg, paths, init, s, ff, cf);
      var prev := Run(cfg, sg, paths, init, s);
      if prev.examples.Ok? {
        ServeSpec(cfg, sg, paths, last, |prev.examples.value|, prev.state, ff, cf);
      }
    }
  }

  /** In a run that succeeds, example `k` is described by request `k` against the final registries. */
  lemma {:induction false} RunDescribes(cfg: Config, sg: SentenceGraph, paths: PathMap, qs: seq<Request>, s: State, ff: nat, cf: nat)
    requires StateWellFormed(s, ff, cf)
    requires Run(cfg, sg, paths, qs, s).examples.Ok?
    ensures var o := Run(cfg, sg, paths, qs, s);
            && |o.examples.value| == |qs|
            && forall k :: 0 <= k < |qs| ==> Describes(cfg, sg, paths, qs[k], k, o.examples.value[k], o.state)
  {
    if |qs| > 0 {
      var init, last := qs[..|qs| - 1], qs[|qs| - 1];
      RunStep(cfg, sg, paths, qs, s);
      var prev := Run(cfg, sg, paths, init, s);
      RunDescribes(cfg, sg, paths, init, s, ff, cf);
      RunState(cfg, sg, paths, init, s, ff, cf);
      ServeSpec(cfg, sg, paths, last, |prev.examples.value|, prev.state, ff, cf);
      var o := Run(cfg, sg, paths, qs, s);
      DescribesExtend(cfg, sg, paths, qs, prev.examples.value, o.examples.value, prev.state, o.state);
    }
  }

  /** The last step of a run: serving the last request after the others, once none has failed. */
  lemma RunStep(cfg: Config, sg: SentenceGraph, paths: PathMap, qs: seq<Request>, s: State)
    requires |qs| > 0
    ensures Run(cfg, sg, paths, qs, s) == Next(cfg, sg, paths, Run(cfg, sg, paths, qs[..|qs| - 1], s), qs[|qs| - 1])
    ensures Run(cfg, sg, paths, qs, s).examples.Ok? ==> Run(cfg, sg, paths, qs[..|qs| - 1], s).examples.Ok?
  {
  }

  /** Descriptions of the examples so far survive the next request, which adds one of its own. */
  lemma DescribesExtend(cfg: Config, sg: SentenceGraph, paths: PathMap, qs: seq<Request>,
                        done: seq<Example>, xs: seq<Example>, st: State, st': State)
    requires |qs| > 0 && |done| == |qs| - 1 && Grows(st, st')
    requires forall k :: 0 <= k < |done| ==> Describes(cfg, sg, paths, qs[..|qs| - 1][k], k, done[k], st)
    requires |xs| == |qs| && xs[..|done|] == done
    requires Describes(cfg, sg, paths, qs[|qs| - 1], |done|, xs[|done|], st')
    ensures forall k :: 0 <= k < |qs| ==> Describes(cfg, sg, paths, qs[k], k, xs[k], st')
  {
    forall k | 0 <= k < |qs|
      ensures Describes(cfg, sg, paths, qs[k], k, xs[k], st')
    {
      if k < |done| {
        assert qs[..|qs| - 1][k] == qs[k] && xs[k] == done[k];
        DescribesStable(cfg, sg, paths, qs[k], k, done[k], st, st');
      }
    }
  }

  /** A failure stops the run: nothing after it is built and the registries stay as they were. */
  lemma ContinueAfterFailure(cfg: Config, sg: SentenceGraph, paths: PathMap, o: Outcome, qs: seq<Request>)
    requires o.examples.Err?
    ensures Continue(cfg, sg, paths, o, qs) == o
  {
    FoldLeftFixed(Step(cfg, sg, paths), o, qs);
  }

  /** Serving `a + b` is serving `a`, then `b` from where `a` left off. */
  lemma ContinueConcat(cfg: Config, sg: SentenceGraph, paths: PathMap, o: Outcome, a: seq<Request>, b: seq<Request>)
    ensures Continue(cfg, sg, paths, o, a + b) == Continue(cfg, sg, paths, Continue(cfg, sg, paths, o, a), b)
  {
    FoldLeftConcat(Step(cfg, sg, paths), o, a, b);
  }

  /** Serving a single request is one step. */
  lemma ContinueOne(cfg: Config, sg: SentenceGraph, paths: PathMap, o: Outcome, q: Request)
    ensures Continue(cfg, sg, paths, o, [q]) == Next(cfg, sg, paths, o, q)
  {
    assert [q][..0] == [];
    assert FoldLeft(Step(cfg, sg, paths), o, []) == o;
    assert Step(cfg, sg, paths)(o, q) == Next(cfg, sg, paths, o, q);
  }

  /** Serving two requests is two steps, the first one's outcome feeding the second. */
  lemma ContinueTwo(cfg: Config, sg: SentenceGraph, paths: PathMap, o: Outcome, q1: Request, q2: Request)
    ensures Continue(cfg, sg, paths, o, [q1, q2]) == Next(cfg, sg, paths, Next(cfg, sg, paths, o, q1), q2)
  {
    assert [q1, q2] == [q1] + [q2];
    ContinueConcat(cfg, sg, paths, o, [q1], [q2]);
    ContinueOne(cfg, sg, paths, o, q1);
    ContinueOne(cfg, sg, paths, Next(cfg, sg, paths, o, q1), q2);
  }

  /** Within one sentence, the examples of a run have pairwise different ids. */
  lemma ExampleIdsUnique(cfg: Config, sg: SentenceGraph, paths: PathMap, qs: seq<Request>, s: State, ff: nat, cf: nat)
    requires StateWellFormed(s, ff, cf)
    requires Run(cfg, sg, paths, qs, s).examples.Ok?
    ensures var xs := Run(cfg, sg, paths, qs, s).examples.value;
            forall k, m :: 0 <= k < m < |xs| ==> xs[k].id != xs[m].id
  {
    RunDescribes(cfg, sg, paths, qs, s, ff, cf);
    var xs := Run(cfg, sg, paths, qs, s).examples.value;
    forall k, m | 0 <= k < m < |xs| ensures xs[k].id != xs[m].id {
      ExampleIdsDistinct(sg.sentenceId, k, m);
    }
  }

  /**
   * Outside binary style, with "neg" registered as class 1, an example's class
   * is 1 exactly when its request is labelled "neg"; in binary style it is -1
   * exactly then, and 1 otherwise.
   */
  lemma NegativeExamples(cfg: Config, sg: SentenceGraph, paths: PathMap, qs: seq<Request>, s: State, ff: nat, cf: nat)
    requires StateWellFormed(s, ff, cf)
    requires "neg" in s.classes.ids && s.classes.ids["neg"] == 1
    requires Run(cfg, sg, paths, qs, s).examples.Ok?
    ensures var xs := Run(cfg, sg, paths, qs, s).examples.value;
            && |xs| == |qs|
            && forall k :: 0 <= k < |qs| ==>
                 if cfg.styles.binary then (xs[k].classId == -1 <==> qs[k].category == "neg")
                                        && (xs[k].classId == 1 <==> qs[k].category != "neg")
                 else xs[k].classId == 1 <==> qs[k].category == "neg"
  {
    RunDescribes(cfg, sg, paths, qs, s, ff, cf);
    RunState(cfg, sg, paths, qs, s, ff, cf);
    var o := Run(cfg, sg, paths, qs, s);
    forall k | 0 <= k < |qs| && !cfg.styles.binary
      ensures o.examples.value[k].classId == 1 <==> qs[k].category == "neg"
    {
      NegativeClass(false, qs[k].category, o.state.classes.ids);
    }
  }

  /** A failure after a prefix of the requests is the outcome of all of them. */
  lemma PrefixFailure(cfg: Config, sg: SentenceGraph, paths: PathMap, o: Outcome, done: seq<Request>, all: seq<Request>)
    requires done <= all
    requires Continue(cfg, sg, paths, o, done).examples.Err?
    ensures Continue(cfg, sg, paths, o, all) == Continue(cfg, sg, paths, o, done)
  {
    FoldLeftPrefixFixed(Step(cfg, sg, paths), o, done, all);
  }

  /** A run that fails on a prefix of the requests fails the same way on all of them. */
  lemma RunPrefixFailure(cfg: Config, sg: SentenceGraph, paths: PathMap, s: State, done: seq<Request>, all: seq<Request>)
    requires done <= all
    requires Run(cfg, sg, paths, done, s).examples.Err?
    ensures Run(cfg, sg, paths, all, s) == Run(cfg, sg, paths, done, s)
  {
    PrefixFailure(cfg, sg, paths, Outcome(s, Ok([])), done, all);
  }

  /** The inner loop's step: serving row `i` up to `k = j + 1` is serving it up to `j`, then the pair `(i, j)`. */
  lemma RowStep(cfg: Config, sg: SentenceGraph, paths: PathMap, o: Outcome, i: nat, j: nat, k: nat)
    requires HeadsKnown(cfg, sg) && i < j < |sg.tokens| && k == j + 1
    ensures Continue(cfg, sg, paths, o, Requests(cfg, sg, RowPairs(i, k))) ==
            Continue(cfg, sg, paths, Continue(cfg, sg, paths, o, Requests(cfg, sg, RowPairs(i, j))),
                     PairRequests(cfg, sg, Pair(i, j)))
  {
    RowRequestsStep(cfg, sg, i, j, k);
    ContinueConcat(cfg, sg, paths, o, Requests(cfg, sg, RowPairs(i, j)), PairRequests(cfg, sg, Pair(i, j)));
  }

  /** Once a pair of row `i` has failed, the later pairs of the row change nothing. */
  lemma RowFailure(cfg: Config, sg: SentenceGraph, paths: PathMap, o: Outcome, i: nat, j: nat, n: nat)
    requires HeadsKnown(cfg, sg) && j <= n
    requires Continue(cfg, sg, paths, o, Requests(cfg, sg, RowPairs(i, j))).examples.Err?
    ensures Continue(cfg, sg, paths, o, Requests(cfg, sg, RowPairs(i, n))) ==
            Continue(cfg, sg, paths, o, Requests(cfg, sg, RowPairs(i, j)))
  {
    RowPairsPrefix(i, j, n);
    RequestsPrefix(cfg, sg, RowPairs(i, j), RowPairs(i, n));
    PrefixFailure(cfg, sg, paths, o, Requests(cfg, sg, RowPairs(i, j)), Requests(cfg, sg, RowPairs(i, n)));
  }

  /** The outer loop's step: serving the rows up to `i + 1` is serving those up to `i`, then row `i`. */
  lemma RowsStep(cfg: Config, sg: SentenceGraph, paths: PathMap, s0: State, i: nat)
    requires HeadsKnown(cfg, sg) && i < |sg.tokens|
    ensures Run(cfg, sg, paths, Requests(cfg, sg, PairsUpTo(|sg.tokens|, i + 1)), s0) ==
            Continue(cfg, sg, paths, Run(cfg, sg, paths, Requests(cfg, sg, PairsUpTo(|sg.tokens|, i)), s0),
                     Requests(cfg, sg, RowPairs(i, |sg.tokens|)))
  {
    RowsRequestsStep(cfg, sg, i);
    ContinueConcat(cfg, sg, paths, Outcome(s0, Ok([])),
                   Requests(cfg, sg, PairsUpTo(|sg.tokens|, i)), Requests(cfg, sg, RowPairs(i, |sg.tokens|)));
  }

  /** A failure in row `i` is the outcome of the whole plan. */
  lemma RowsFailure(cfg: Config, sg: SentenceGraph, paths: PathMap, s0: State, i: nat)
    requires HeadsKnown(cfg, sg) && i + 1 < |sg.tokens|
    requires Run(cfg, sg, paths, Requests(cfg, sg, PairsUpTo(|sg.tokens|, i + 1)), s0).examples.Err?
    requires Requests(cfg, sg, PairsUpTo(|sg.tokens|, i + 1)) <= Plan(cfg, sg)
    ensures Run(cfg, sg, paths, Plan(cfg, sg), s0) ==
            Run(cfg, sg, paths, Requests(cfg, sg, PairsUpTo(|sg.tokens|, i + 1)), s0)
  {
    RunPrefixFailure(cfg, sg, paths, s0, Requests(cfg, sg, PairsUpTo(|sg.tokens|, i + 1)), Plan(cfg, sg));
  }

  /**
   * The outer loop's step as the builder takes it: the outcome after row `i`,
   * continued from the outcome of the rows before it, is the outcome of the
   * rows up to `i + 1`, and when it is a failure it is the outcome of the whole plan.
   */
  lemma RowsAdvance(cfg: Config, sg: SentenceGraph, paths: PathMap, s0: State, i: nat, before: Outcome, after: Outcome)
    requires HeadsKnown(cfg, sg) && i + 1 < |sg.tokens|
    requires before == Run(cfg, sg, paths, Requests(cfg, sg, PairsUpTo(|sg.tokens|, i)), s0)
    requires after == Continue(cfg, sg, paths, before, Requests(cfg, sg, RowPairs(i, |sg.tokens|)))
    requires Requests(cfg, sg, PairsUpTo(|sg.tokens|, i + 1)) <= Plan(cfg, sg)
    ensures after == Run(cfg, sg, paths, Requests(cfg, sg, PairsUpTo(|sg.tokens|, i + 1)), s0)
    ensures after.examples.Err? ==> after == Run(cfg, sg, paths, Plan(cfg, sg), s0)
  {
    RowsStep(cfg, sg, paths, s0, i);
    if after.examples.Err? {
      RowsFailure(cfg, sg, paths, s0, i);
    }
  }
}
