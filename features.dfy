/**
 * What `buildExample` computes for one oriented token pair: the path it
 * looks up, the feature writes it performs (the external builders' or the
 * out-of-scope sentinels), the extra attributes from the token numbers, and
 * the class id.
 */
module Features {
  import opened Wrappers
  import opened Sentence
  import opened TokenIds
  import opened IdRegistry
  import opened Folds

  predicate HasPath(paths: PathMap, t1: Token, t2: Token)
  {
    t1 in paths && t2 in paths[t1]
  }

  /** The path the example is built on: the looked-up one, or `[token1, token2]` when there is none. */
  function PathFor(paths: PathMap, t1: Token, t2: Token): seq<Token>
  {
    if HasPath(paths, t1, t2) then paths[t1][t2] else [t1, t2]
  }

  /** A path exists and its length (edges, `len(path) - 1`) is allowed. */
  predicate InScope(cfg: Config, paths: PathMap, t1: Token, t2: Token)
  {
    HasPath(paths, t1, t2) &&
    (cfg.pathLengths.None? || |paths[t1][t2]| - 1 in cfg.pathLengths.value)
  }

  /** The path's end points are the two tokens, found or not. */
  lemma PathForEndpoints(paths: PathMap, t1: Token, t2: Token)
    requires PathsWellFormed(paths)
    ensures var p := PathFor(paths, t1, t2); |p| > 0 && p[0] == t1 && p[|p| - 1] == t2
  {
  }

  /** The position the token search loop ends on: the last occurrence. */
  function LastIndex(tokens: seq<Token>, t: Token): (r: Option<nat>)
    ensures r.Some? <==> t in tokens
    ensures r.Some? ==> r.value < |tokens| && tokens[r.value] == t
  {
    if |tokens| == 0 then None
    else if tokens[|tokens| - 1] == t then Some(|tokens| - 1)
    else LastIndex(tokens[..|tokens| - 1], t)
  }

  lemma {:induction false} LastIndexIsLast(tokens: seq<Token>, t: Token)
    requires t in tokens
    ensures forall m :: LastIndex(tokens, t).value < m < |tokens| ==> tokens[m] != t
  {
    if tokens[|tokens| - 1] != t {
      var init := tokens[..|tokens| - 1];
      assert t in init by {
        var k :| 0 <= k < |tokens| && tokens[k] == t;
        assert init[k] == t;
      }
      LastIndexIsLast(init, t);
    }
  }

  /**
   * The last position of `t` in the sentence; the source's callers only ever
   * ask for tokens of the sentence, so the 0 for a missing token is never used.
   */
  function Position(tokens: seq<Token>, t: Token): nat
  {
    match LastIndex(tokens, t)
    case Some(k) => k
    case None => 0
  }

  /** The two tokens' positions in sentence order, the smaller first. */
  function LinearPositions(tokens: seq<Token>, t1: Token, t2: Token): (nat, nat)
  {
    var a, b := Position(tokens, t1), Position(tokens, t2);
    if a > b then (b, a) else (a, b)
  }

  /** The writes of an out-of-scope example: `always_negative`, and `out_of_scope` under "subset". */
  function SentinelWrites(subset: bool): seq<FeatureWrite>
  {
    [FeatureWrite("always_negative", 1.0)] +
    (if subset then [FeatureWrite("out_of_scope", 1.0)] else [])
  }

  /** The writes of an example in scope: the dependency-path builder's, then the linear builder's for each token. */
  function ScopedWrites(cfg: Config, sg: SentenceGraph, path: seq<Token>, t1: Token, t2: Token): seq<FeatureWrite>
  {
    var dependency := if cfg.styles.noDependency then [] else cfg.contributors.dependency(sg, path);
    if cfg.styles.noLinear then dependency
    else
      var (lo, hi) := LinearPositions(sg.tokens, t1, t2);
      dependency + cfg.contributors.linear(sg, lo, "linTok1") + cfg.contributors.linear(sg, hi, "linTok2")
  }

  /** Every feature write of `buildExample(t1, t2, ...)`, in the order they happen. */
  function FeatureWrites(cfg: Config, sg: SentenceGraph, paths: PathMap, t1: Token, t2: Token): seq<FeatureWrite>
  {
    if InScope(cfg, paths, t1, t2) then ScopedWrites(cfg, sg, paths[t1][t2], t1, t2)
    else SentinelWrites(cfg.styles.subset)
  }

  /** The names `setFeature` registers, one per write, in order. */
  function WriteNames(ws: seq<FeatureWrite>): seq<string>
  {
    if |ws| == 0 then [] else WriteNames(ws[..|ws| - 1]) + [ws[|ws| - 1].name]
  }

  /** Name `k` is the name of write `k`. */
  lemma {:induction false} WriteNamesAt(ws: seq<FeatureWrite>)
    ensures |WriteNames(ws)| == |ws|
    ensures forall k :: 0 <= k < |ws| ==> WriteNames(ws)[k] == ws[k].name
  {
    if |ws| > 0 {
      WriteNamesAt(ws[..|ws| - 1]);
    }
  }

  ghost predicate Registered(ws: seq<FeatureWrite>, ids: map<string, nat>)
  {
    forall w :: w in ws ==> w.name in ids
  }

  /** The feature map after performing the writes `ws` on `m`, later writes winning. */
  function Apply(m: map<nat, real>, ws: seq<FeatureWrite>, ids: map<string, nat>): map<nat, real>
    requires Registered(ws, ids)
  {
    if |ws| == 0 then m
    else
      var w := ws[|ws| - 1];
      Apply(m, ws[..|ws| - 1], ids)[ids[w.name] := w.value]
  }

  /** The feature vector the writes `ws` produce from an empty dict. */
  function Vector(ws: seq<FeatureWrite>, ids: map<string, nat>): map<nat, real>
    requires Registered(ws, ids)
  {
    Apply(map[], ws, ids)
  }

  lemma {:induction false} ApplyConcat(m: map<nat, real>, a: seq<FeatureWrite>, b: seq<FeatureWrite>, ids: map<string, nat>)
    requires Registered(a, ids) && Registered(b, ids)
    ensures Registered(a + b, ids)
    ensures Apply(m, a + b, ids) == Apply(Apply(m, a, ids), b, ids)
  {
    assert Registered(a + b, ids) by {
      forall w | w in a + b ensures w.name in ids { assert w in a || w in b; }
    }
    if |b| == 0 {
      assert a + b == a;
    } else {
      var init := b[..|b| - 1];
      assert (a + b)[..|a + b| - 1] == a + init;
      assert Registered(init, ids) by {
        forall w | w in init ensures w.name in ids { assert w in b; }
      }
      ApplyConcat(m, a, init, ids);
    }
  }

  /** Registering more names later does not change what earlier writes produced. */
  lemma {:induction false} ApplyStable(m: map<nat, real>, ws: seq<FeatureWrite>, ids: map<string, nat>, ids': map<string, nat>)
    requires Registered(ws, ids) && Extends(ids, ids')
    ensures Registered(ws, ids')
    ensures Apply(m, ws, ids) == Apply(m, ws, ids')
  {
    if |ws| > 0 {
      var init := ws[..|ws| - 1];
      assert Registered(init, ids) by {
        forall w | w in init ensures w.name in ids { assert w in ws; }
      }
      ApplyStable(m, init, ids, ids');
    }
  }

  lemma {:induction false} WriteNamesConcat(a: seq<FeatureWrite>, b: seq<FeatureWrite>)
    ensures WriteNames(a + b) == WriteNames(a) + WriteNames(b)
  {
    if |b| == 0 {
      assert a + b == a;
    } else {
      var init := b[..|b| - 1];
      assert (a + b)[..|a + b| - 1] == a + init;
      WriteNamesConcat(a, init);
    }
  }

  /**
   * Performing `done`, then `more`, registers the names of `done + more` and
   * leaves the vector `done + more` produces, read with the final ids.
   */
  lemma ComposeWrites(f0: Registry, done: seq<FeatureWrite>, more: seq<FeatureWrite>)
    ensures var f1 := RegisterAll(f0, WriteNames(done));
            var f2 := RegisterAll(f1, WriteNames(more));
            && f2 == RegisterAll(f0, WriteNames(done + more))
            && Registered(done, f1.ids) && Registered(more, f2.ids) && Registered(done + more, f2.ids)
            && Apply(Vector(done, f1.ids), more, f2.ids) == Vector(done + more, f2.ids)
  {
    var f1 := RegisterAll(f0, WriteNames(done));
    var f2 := RegisterAll(f1, WriteNames(more));
    WriteNamesConcat(done, more);
    RegisterAllConcat(f0, WriteNames(done), WriteNames(more));
    RegisteredAfter(f0, done);
    RegisteredAfter(f1, more);
    ApplyStable(map[], done, f1.ids, f2.ids);
    ApplyConcat(map[], done, more, f2.ids);
  }

  /** One more write: its name is registered after the others, and its value lands in its slot. */
  lemma WriteSnoc(r: Registry, m: map<nat, real>, ws: seq<FeatureWrite>, w: FeatureWrite, ids: map<string, nat>)
    ensures RegisterAll(r, WriteNames(ws + [w])) == Register(RegisterAll(r, WriteNames(ws)), w.name)
    ensures Registered(ws, ids) && w.name in ids ==>
              Registered(ws + [w], ids) && Apply(m, ws + [w], ids) == Apply(m, ws, ids)[ids[w.name] := w.value]
  {
    assert WriteNames(ws + [w]) == WriteNames(ws) + [w.name];
    assert (ws + [w])[..|ws|] == ws;
    if Registered(ws, ids) && w.name in ids {
      forall x | x in ws + [w] ensures x.name in ids { assert x in ws || x == w; }
    }
  }

  /** The loop step of performing writes: one more `setFeature` extends the prefix performed so far by one. */
  lemma WritePrefixStep(r0: Registry, m0: map<nat, real>, ws: seq<FeatureWrite>, k: nat,
                        f: Registry, m: map<nat, real>)
    requires k < |ws|
    requires f == RegisterAll(r0, WriteNames(ws[..k])) && Registered(ws[..k], f.ids)
    requires m == Apply(m0, ws[..k], f.ids)
    ensures var f' := Register(f, ws[k].name);
            && f' == RegisterAll(r0, WriteNames(ws[..k + 1]))
            && Registered(ws[..k + 1], f'.ids)
            && m[f'.ids[ws[k].name] := ws[k].value] == Apply(m0, ws[..k + 1], f'.ids)
  {
    var f' := Register(f, ws[k].name);
    ApplyStable(m0, ws[..k], f.ids, f'.ids);
    TakeSnoc(ws, k);
    WriteSnoc(r0, m0, ws[..k], ws[k], f'.ids);
  }

  /** After registering the names of `ws`, all of them are registered. */
  lemma RegisteredAfter(r: Registry, ws: seq<FeatureWrite>)
    ensures Registered(ws, RegisterAll(r, WriteNames(ws)).ids)
  {
    forall w | w in ws ensures w.name in RegisterAll(r, WriteNames(ws)).ids {
      var k :| 0 <= k < |ws| && ws[k] == w;
      WriteNamesAt(ws);
      assert WriteNames(ws)[k] == w.name;
    }
  }

  /**
   * No path, or a path of a length not allowed: the features are exactly
   * `always_negative` = 1, plus `out_of_scope` = 1 under "subset", and no
   * feature builder runs.
   */
  lemma OutOfScopeFeatures(cfg: Config, sg: SentenceGraph, paths: PathMap, t1: Token, t2: Token, ids: map<string, nat>)
    requires !InScope(cfg, paths, t1, t2)
    requires "always_negative" in ids
    requires cfg.styles.subset ==> "out_of_scope" in ids && Injective(ids)
    ensures FeatureWrites(cfg, sg, paths, t1, t2) == SentinelWrites(cfg.styles.subset)
    ensures Vector(SentinelWrites(cfg.styles.subset), ids) ==
            map[ids["always_negative"] := 1.0] +
            (if cfg.styles.subset then map[ids["out_of_scope"] := 1.0] else map[])
    ensures |Vector(SentinelWrites(cfg.styles.subset), ids)| == if cfg.styles.subset then 2 else 1
  {
    var ws := SentinelWrites(cfg.styles.subset);
    var a := ids["always_negative"];
    assert ws[..1] == [FeatureWrite("always_negative", 1.0)];
    assert Apply(map[], ws[..1], ids) == map[a := 1.0];
    if cfg.styles.subset {
      var o := ids["out_of_scope"];
      assert a != o;
      assert map[a := 1.0][o := 1.0].Keys == {a, o};
    }
  }

  /** When no path exists the degenerate path `[token1, token2]` is used and the example is out of scope. */
  lemma NoPathIsDegenerate(cfg: Config, paths: PathMap, t1: Token, t2: Token)
    requires !HasPath(paths, t1, t2)
    ensures PathFor(paths, t1, t2) == [t1, t2]
    ensures !InScope(cfg, paths, t1, t2)
  {
  }

  /** The failure `int()` raises on a token id without a number. */
  datatype BuildError = MalformedTokenId(id: string)

  /** The example's extra attributes: `xtype`, `type`, `t1`, `t2`, `deprev`. */
  datatype Extra = Extra(xtype: string, relType: string, t1: Token, t2: Token, deprev: bool)

  /** The extra attributes of an example whose path runs from `first` to `last`. */
  function Orientation(first: Token, last: Token): Result<Extra, BuildError>
  {
    match TokenNumber(first.id)
    case None => Err(MalformedTokenId(first.id))
    case Some(a) =>
      match TokenNumber(last.id)
      case None => Err(MalformedTokenId(last.id))
      case Some(b) => Ok(Oriented(first, last, a, b))
  }

  /** The attributes of a path from `first` (number `a`) to `last` (number `b`). */
  function Oriented(first: Token, last: Token, a: int, b: int): Extra
  {
    if a < b then Extra("edge", "i", first, last, false)
    else Extra("edge", "i", last, first, true)
  }

  /**
   * The attributes exist exactly when both ends have token numbers; they are
   * always of kind "edge" / "i"; `t1` is the end with the smaller number
   * (`last` on a tie) and `deprev` is false exactly when `first`'s number is
   * the smaller.
   */
  lemma OrientationSpec(first: Token, last: Token)
    ensures Orientation(first, last).Ok? <==>
            TokenNumber(first.id).Some? && TokenNumber(last.id).Some?
    ensures Orientation(first, last).Ok? ==>
              var x := Orientation(first, last).value;
              var a, b := TokenNumber(first.id).value, TokenNumber(last.id).value;
              && x.xtype == "edge" && x.relType == "i"
              && (x.deprev <==> !(a < b))
              && (x.t1, x.t2) == (if x.deprev then (last, first) else (first, last))
              && TokenNumber(x.t1.id).value <= TokenNumber(x.t2.id).value
  {
  }

  /** Swapping two ends with different numbers keeps `t1`/`t2` and flips `deprev`. */
  lemma OrientationSwap(a: Token, b: Token)
    requires Orientation(a, b).Ok?
    requires TokenNumber(a.id) != TokenNumber(b.id)
    ensures Orientation(b, a).Ok?
    ensures Orientation(b, a).value == Orientation(a, b).value.(deprev := !Orientation(a, b).value.deprev)
  {
    var na, nb := TokenNumber(a.id).value, TokenNumber(b.id).value;
    assert Orientation(a, b).value == Oriented(a, b, na, nb);
    assert Orientation(b, a).value == Oriented(b, a, nb, na);
  }

  /** The numeric class of an example: ±1 in "binary" style, else the class registry's id. */
  function ClassIdOf(binary: bool, category: string, classIds: map<string, nat>): int
    requires binary || category in classIds
  {
    if binary then (if category != "neg" then 1 else -1) else classIds[category]
  }

  /**
   * With "neg" registered as 1 in a registry of unique ids, class id 1 means
   * "neg" and nothing else; in binary style -1 means "neg" and 1 anything else.
   */
  lemma NegativeClass(binary: bool, category: string, classIds: map<string, nat>)
    requires binary || category in classIds
    requires "neg" in classIds && classIds["neg"] == 1 && Injective(classIds)
    ensures !binary ==> (ClassIdOf(binary, category, classIds) == 1 <==> category == "neg")
    ensures binary ==> (ClassIdOf(binary, category, classIds) == -1 <==> category == "neg")
    ensures binary ==> (ClassIdOf(binary, category, classIds) == 1 <==> category != "neg")
  {
  }

  /** An emitted example: id, class, feature vector and extra attributes. */
  datatype Example = Example(id: string, classId: int, features: map<nat, real>, extra: Extra)

  /** `sentenceId + ".x" + index`. */
  function ExampleId(sentenceId: string, index: string): string
  {
    sentenceId + ".x" + index
  }

  /** Different indices give different example ids within a sentence. */
  lemma ExampleIdsDistinct(sentenceId: string, m: nat, n: nat)
    requires m != n
    ensures ExampleId(sentenceId, DecimalString(m)) != ExampleId(sentenceId, DecimalString(n))
  {
    var p := sentenceId + ".x";
    var x, y := DecimalString(m), DecimalString(n);
    assert ExampleId(sentenceId, x)[|p|..] == x;
    assert ExampleId(sentenceId, y)[|p|..] == y;
    if x == y {
      DecimalInjective(m, n);
    }
  }
}
