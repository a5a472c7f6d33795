/**
 * The example builder for typed pairwise interactions: for every pair of
 * (entity-head) tokens of a sentence it emits labelled examples whose
 * features come from the dependency path between the two tokens and from
 * their linear context, registering feature and class names as it goes.
 */
module ExampleBuilder {
  import opened Wrappers
  import opened Sentence
  import opened TokenIds
  import opened IdRegistry
  import opened EdgeCategory
  import opened PairPolicy
  import opened Features
  import opened Emission

  /** The token-position loop of the linear features: the last positions of the two tokens, smaller first. */
  method LocateTokens(tokens: seq<Token>, token1: Token, token2: Token) returns (lo: nat, hi: nat)
    requires token1 in tokens && token2 in tokens
    ensures lo <= hi < |tokens|
    ensures {tokens[lo], tokens[hi]} == {token1, token2}
    ensures (lo, hi) == LinearPositions(tokens, token1, token2)
  {
    var token1Index: Option<nat> := None;
    var token2Index: Option<nat> := None;
    for i := 0 to |tokens|
      invariant token1Index == LastIndex(tokens[..i], token1)
      invariant token2Index == LastIndex(tokens[..i], token2)
    {
      assert tokens[..i + 1][..i] == tokens[..i];
      if tokens[i] == token1 {
        token1Index := Some(i);
      }
      if tokens[i] == token2 {
        token2Index := Some(i);
      }
    }
    assert tokens[..|tokens|] == tokens;
    lo, hi := token1Index.value, token2Index.value;
    if lo > hi {
      lo, hi := hi, lo;
    }
  }

  class MultiEdgeExampleBuilder {
    const config: Config
    /** The feature-name registry the feature builders share. */
    const featureSet: IdSet
    /** The class-name registry; "neg" is class 1. */
    const classSet: IdSet

    ghost predicate Valid()
      reads this, featureSet, classSet
    {
      && featureSet != classSet
      && featureSet.Valid() && classSet.Valid()
      && "neg" in classSet.ids && classSet.ids["neg"] == 1
    }

    /** Both registries, as values. */
    function Registries(): State
      reads this, featureSet, classSet
    {
      State(featureSet.State(), classSet.State())
    }

    /** A builder with empty registries, except for "neg" registered as class 1. */
    constructor (config: Config, firstFeatureId: nat)
      ensures Valid() && fresh(featureSet) && fresh(classSet)
      ensures this.config == config
      ensures featureSet.State() == Registry(map[], firstFeatureId)
      ensures classSet.State() == Registry(map["neg" := 1], 2)
    {
      this.config := config;
      featureSet := new IdSet(firstFeatureId);
      classSet := new IdSet(1);
      new;
      var neg := classSet.GetId("neg");
      assert neg == 1;
    }

    /** A feature builder's `setFeature`: register the name, then set its slot. */
    method SetFeature(features: map<nat, real>, w: FeatureWrite) returns (r: map<nat, real>)
      requires Valid()
      modifies featureSet
      ensures Valid()
      ensures featureSet.State() == Register(old(featureSet.State()), w.name)
      ensures w.name in featureSet.ids && r == features[featureSet.ids[w.name] := w.value]
    {
      var id := featureSet.GetId(w.name);
      r := features[id := w.value];
    }

    /** The `setFeature` calls of one feature builder, in order. */
    method ApplyWrites(features: map<nat, real>, ws: seq<FeatureWrite>) returns (r: map<nat, real>)
      requires Valid()
      modifies featureSet
      ensures Valid()
      ensures featureSet.State() == RegisterAll(old(featureSet.State()), WriteNames(ws))
      ensures Registered(ws, featureSet.ids)
      ensures r == Apply(features, ws, featureSet.ids)
    {
      r := features;
      for k := 0 to |ws|
        invariant Valid()
        invariant featureSet.State() == RegisterAll(old(featureSet.State()), WriteNames(ws[..k]))
        invariant Registered(ws[..k], featureSet.ids)
        invariant r == Apply(features, ws[..k], featureSet.ids)
      {
        WritePrefixStep(old(featureSet.State()), features, ws, k, featureSet.State(), r);
        r := SetFeature(r, ws[k]);
      }
      assert ws[..|ws|] == ws;
    }

    /** The features of an example out of scope: `always_negative`, and `out_of_scope` under "subset". */
    method MarkOutOfScope(features: map<nat, real>) returns (r: map<nat, real>)
      requires Valid()
      modifies featureSet
      ensures Valid()
      ensures var ws := SentinelWrites(config.styles.subset);
              && featureSet.State() == RegisterAll(old(featureSet.State()), WriteNames(ws))
              && Registered(ws, featureSet.ids)
              && r == Apply(features, ws, featureSet.ids)
    {
      ghost var ws := SentinelWrites(config.styles.subset);
      ghost var f0 := featureSet.State();
      assert ws[..0] == [];
      WritePrefixStep(f0, features, ws, 0, featureSet.State(), features);
      r := SetFeature(features, FeatureWrite("always_negative", 1.0));
      if config.styles.subset {
        WritePrefixStep(f0, features, ws, 1, featureSet.State(), r);
        r := SetFeature(r, FeatureWrite("out_of_scope", 1.0));
      }
      assert ws[..|ws|] == ws;
    }

    /** The features of an example in scope: dependency-path features, then linear features, unless switched off. */
    method ScopedFeatures(token1: Token, token2: Token, path: seq<Token>, sg: SentenceGraph)
      returns (features: map<nat, real>)
      requires Valid()
      requires token1 in sg.tokens && token2 in sg.tokens
      modifies featureSet
      ensures Valid()
      ensures var ws := ScopedWrites(config, sg, path, token1, token2);
              && featureSet.State() == RegisterAll(old(featureSet.State()), WriteNames(ws))
              && Registered(ws, featureSet.ids)
              && features == Vector(ws, featureSet.ids)
    {
      ghost var f0 := featureSet.State();
      ghost var done: seq<FeatureWrite> := [];
      features := map[];
      if !config.styles.noDependency {
        var ws := config.contributors.dependency(sg, path);
        ComposeWrites(f0, done, ws);
        features := ApplyWrites(features, ws);
        assert done + ws == ws;
        done := done + ws;
      }
      ghost var dependency := done;
      if !config.styles.noLinear {
        var token1Index, token2Index := LocateTokens(sg.tokens, token1, token2);
        var ws1 := config.contributors.linear(sg, token1Index, "linTok1");
        ComposeWrites(f0, done, ws1);
        features := ApplyWrites(features, ws1);
        done := done + ws1;
        var ws2 := config.contributors.linear(sg, token2Index, "linTok2");
        ComposeWrites(f0, done, ws2);
        features := ApplyWrites(features, ws2);
        done := done + ws2;
      }
      assert done == ScopedWrites(config, sg, path, token1, token2);
    }

    /**
     * The feature part of `buildExample`: the scoped features when a path
     * exists and its length is allowed, the out-of-scope features otherwise;
     * also the path the extra attributes are read from.
     */
    method PathFeatures(token1: Token, token2: Token, paths: PathMap, sg: SentenceGraph)
      returns (features: map<nat, real>, path: seq<Token>)
      requires Valid()
      requires token1 in sg.tokens && token2 in sg.tokens
      modifies featureSet
      ensures Valid()
      ensures var ws := FeatureWrites(config, sg, paths, token1, token2);
              && featureSet.State() == RegisterAll(old(featureSet.State()), WriteNames(ws))
              && Registered(ws, featureSet.ids)
              && features == Vector(ws, featureSet.ids)
      ensures path == PathFor(paths, token1, token2)
    {
      if token1 in paths && token2 in paths[token1] {
        path := paths[token1][token2];
        if config.pathLengths.None? || |path| - 1 in config.pathLengths.value {
          features := ScopedFeatures(token1, token2, path, sg);
        } else {
          features := MarkOutOfScope(map[]);
        }
      } else {
        features := MarkOutOfScope(map[]);
        path := [token1, token2];
      }
    }

    /**
     * `buildExample`: the features, extra attributes and class of the example
     * for the ordered pair `(token1, token2)`, labelled `categoryName` and
     * numbered `index`; a token id without a number fails the build after
     * the features are registered and before the class is.
     */
    method BuildExample(token1: Token, token2: Token, paths: PathMap, sg: SentenceGraph,
                        categoryName: string, index: string) returns (r: Result<Example, BuildError>)
      requires Valid() && PathsWellFormed(paths)
      requires token1 in sg.tokens && token2 in sg.tokens
      modifies featureSet, classSet
      ensures Valid()
      ensures (Registries(), r) == Build(config, sg, paths, token1, token2, categoryName, index, old(Registries()))
    {
      var features, path := PathFeatures(token1, token2, paths, sg);
      PathForEndpoints(paths, token1, token2);
      var extra: Extra;
      match Orientation(path[0], path[|path| - 1]) {
        case Err(e) =>
          return Err(e);
        case Ok(x) =>
          extra := x;
      }
      var category: int;
      if config.styles.binary {
        category := if categoryName != "neg" then 1 else -1;
      } else {
        category := classSet.GetId(categoryName);
      }
      r := Ok(Example(ExampleId(sg.sentenceId, index), category, features, extra));
    }

    /**
     * One directed example of the ordered pair `(a, b)`: labelled by the
     * category of the edges from `a` to `b`, or "neg" when there are none or
     * none of an included type. Forward and reverse examples both take this form.
     */
    method DirectedExample(a: Token, b: Token, paths: PathMap, sg: SentenceGraph, emitted: seq<Example>)
      returns (r: Result<seq<Example>, BuildError>)
      requires Valid() && PathsWellFormed(paths)
      requires a in sg.tokens && b in sg.tokens
      modifies featureSet, classSet
      ensures Valid()
      ensures Outcome(Registries(), r) ==
              Next(config, sg, paths, Outcome(old(Registries()), Ok(emitted)),
                   Request(a, b, DirectedLabel(sg, config.types, a, b), false))
    {
      var example: Option<Example> := None;
      if (a, b) in sg.interactions {
        var categoryName := GetType(sg.interactions[(a, b)], config.types);
        if categoryName.Some? {
          var x := BuildExample(a, b, paths, sg, categoryName.value, DecimalString(|emitted|));
          if x.Err? {
            return Err(x.error);
          }
          example := Some(x.value);
        }
      }
      if example.None? {
        var x := BuildExample(a, b, paths, sg, "neg", DecimalString(|emitted|));
        if x.Err? {
          return Err(x.error);
        }
        example := Some(x.value);
      }
      r := Ok(emitted + [example.value]);
    }

    /** The directed examples of the pair `(tI, tJ)`: the forward one, then the reverse one. */
    method DirectedPair(tI: Token, tJ: Token, paths: PathMap, sg: SentenceGraph, emitted: seq<Example>)
      returns (r: Result<seq<Example>, BuildError>)
      requires Valid() && PathsWellFormed(paths)
      requires tI in sg.tokens && tJ in sg.tokens
      modifies featureSet, classSet
      ensures Valid()
      ensures Outcome(Registries(), r) ==
              Continue(config, sg, paths, Outcome(old(Registries()), Ok(emitted)),
                       [Request(tI, tJ, DirectedLabel(sg, config.types, tI, tJ), false),
                        Request(tJ, tI, DirectedLabel(sg, config.types, tJ, tI), false)])
    {
      ghost var o := Outcome(Registries(), Ok(emitted));
      ghost var forwardRequest := Request(tI, tJ, DirectedLabel(sg, config.types, tI, tJ), false);
      ghost var reverseRequest := Request(tJ, tI, DirectedLabel(sg, config.types, tJ, tI), false);
      ContinueTwo(config, sg, paths, o, forwardRequest, reverseRequest);
      var forward := DirectedExample(tI, tJ, paths, sg, emitted);
      if forward.Err? {
        return forward;
      }
      r := DirectedExample(tJ, tI, paths, sg, forward.value);
    }

    /**
     * The undirected example itself: the build of `(tI, tJ)` numbered `k`,
     * whose features are then updated with those of a reverse build labelled
     * "temp".
     */
    method MergedExample(tI: Token, tJ: Token, paths: PathMap, sg: SentenceGraph, categoryName: string, k: nat)
      returns (r: Result<Example, BuildError>)
      requires Valid() && PathsWellFormed(paths)
      requires tI in sg.tokens && tJ in sg.tokens
      modifies featureSet, classSet
      ensures Valid()
      ensures (Registries(), r) == Serve(config, sg, paths, Request(tI, tJ, categoryName, true), k, old(Registries()))
    {
      var x := BuildExample(tI, tJ, paths, sg, categoryName, DecimalString(k));
      if x.Err? {
        return x;
      }
      var temp := BuildExample(tJ, tI, paths, sg, "temp", "temp");
      if temp.Err? {
        return Err(temp.error);
      }
      r := Ok(x.value.(features := x.value.features + temp.value.features));
    }

    /**
     * The undirected example of the pair `{tI, tJ}`: labelled by the category
     * of the edges of both directions pooled, or "neg" when there are none or
     * none of an included type (the source's two branches differ only in
     * this label).
     */
    method UndirectedPair(tI: Token, tJ: Token, paths: PathMap, sg: SentenceGraph, emitted: seq<Example>)
      returns (r: Result<seq<Example>, BuildError>)
      requires Valid() && PathsWellFormed(paths)
      requires tI in sg.tokens && tJ in sg.tokens
      modifies featureSet, classSet
      ensures Valid()
      ensures Outcome(Registries(), r) ==
              Continue(config, sg, paths, Outcome(old(Registries()), Ok(emitted)),
                       [Request(tI, tJ, UndirectedLabel(sg, config.types, tI, tJ), true)])
    {
      ghost var o := Outcome(Registries(), Ok(emitted));
      var intEdges: seq<Edge> := [];
      if (tI, tJ) in sg.interactions {
        intEdges := intEdges + sg.interactions[(tI, tJ)];
      }
      if (tJ, tI) in sg.interactions {
        intEdges := intEdges + sg.interactions[(tJ, tI)];
      }
      assert intEdges == PooledEdges(sg, tI, tJ);
      var categoryName := "neg";
      if |intEdges| > 0 {
        var category := GetType(intEdges, config.types);
        if category.Some? {
          categoryName := category.value;
        }
      }
      ContinueOne(config, sg, paths, o, Request(tI, tJ, categoryName, true));
      var x := MergedExample(tI, tJ, paths, sg, categoryName, |emitted|);
      r := if x.Err? then Err(x.error) else Ok(emitted + [x.value]);
    }

    /** The body of the pair loop for tokens `i < j`: skip non-heads under "headsOnly", else emit by style. */
    method PairExamples(i: nat, j: nat, paths: PathMap, sg: SentenceGraph, emitted: seq<Example>)
      returns (r: Result<seq<Example>, BuildError>)
      requires Valid() && HeadsKnown(config, sg) && PathsWellFormed(paths)
      requires i < j < |sg.tokens|
      modifies featureSet, classSet
      ensures Valid()
      ensures Outcome(Registries(), r) ==
              Continue(config, sg, paths, Outcome(old(Registries()), Ok(emitted)), PairRequests(config, sg, Pair(i, j)))
    {
      var tI := sg.tokens[i];
      var tJ := sg.tokens[j];
      if config.styles.headsOnly && (!sg.entityHead[tI] || !sg.entityHead[tJ]) {
        return Ok(emitted);
      }
      if config.styles.directed {
        r := DirectedPair(tI, tJ, paths, sg, emitted);
      } else {
        r := UndirectedPair(tI, tJ, paths, sg, emitted);
      }
    }

    /** The inner loop of `buildExamples`: the pairs `(i, j)` for `j` from `i + 1` on, in order. */
    method RowExamples(i: nat, paths: PathMap, sg: SentenceGraph, emitted: seq<Example>)
      returns (r: Result<seq<Example>, BuildError>)
      requires Valid() && HeadsKnown(config, sg) && PathsWellFormed(paths)
      requires i < |sg.tokens|
      modifies featureSet, classSet
      ensures Valid()
      ensures Outcome(Registries(), r) ==
              Continue(config, sg, paths, Outcome(old(Registries()), Ok(emitted)),
                       Requests(config, sg, RowPairs(i, |sg.tokens|)))
    {
      ghost var o := Outcome(Registries(), Ok(emitted));
      var n := |sg.tokens|;
      r := Ok(emitted);
      var j := i + 1;
      while j < n
        invariant Valid()
        invariant i + 1 <= j <= n
        invariant Outcome(Registries(), r) == Continue(config, sg, paths, o, Requests(config, sg, RowPairs(i, j)))
        invariant r.Err? ==> j == n
      {
        ghost var previous := j;
        r := PairExamples(i, j, paths, sg, r.value);
        j := j + 1;
        RowStep(config, sg, paths, o, i, previous, j);
        if r.Err? {
          RowFailure(config, sg, paths, o, i, j, n);
          j := n;
        }
      }
    }

    /**
     * `buildExamples`: every pair of tokens `i < j` in sentence order, each
     * giving its examples in turn; a token id without a number stops the
     * sentence with that failure.
     */
    method BuildExamples(sg: SentenceGraph, paths: PathMap) returns (r: Result<seq<Example>, BuildError>)
      requires Valid() && HeadsKnown(config, sg) && PathsWellFormed(paths)
      modifies featureSet, classSet
      ensures Valid()
      ensures Outcome(Registries(), r) == Run(config, sg, paths, Plan(config, sg), old(Registries()))
    {
      ghost var s0 := Registries();
      var n := |sg.tokens|;
      ghost var last := if n == 0 then 0 else n - 1;
      var examples: seq<Example> := [];
      var i := 0;
      while i + 1 < n
        invariant Valid()
        invariant i <= last
        invariant Outcome(Registries(), Ok(examples)) == Run(config, sg, paths, Requests(config, sg, PairsUpTo(n, i)), s0)
      {
        ghost var before := Outcome(Registries(), Ok(examples));
        RowsPrefixOfPlan(config, sg, i + 1);
        var next := RowExamples(i, paths, sg, examples);
        RowsAdvance(config, sg, paths, s0, i, before, Outcome(Registries(), next));
        if next.Err? {
          return next;
        }
        examples := next.value;
        i := i + 1;
      }
      AllRowsArePlan(config, sg, i);
      r := Ok(examples);
    }
  }
}
