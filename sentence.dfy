/**
 * What one call of the example builder works on: a sentence's tokens, its
 * entity-head table, its gold interaction graph, the shortest-path table
 * computed over its dependency graph, and the builder's configuration.
 */
module Sentence {
  import opened Wrappers

  /** A token of the sentence, known by its id attribute (such as "bt_4"). */
  datatype Token = Token(id: string)

  /** A gold interaction edge; the builder reads only its type attribute. */
  datatype Edge = Edge(id: string, etype: string)

  /**
   * `entityHead[t]` is true when the sentence graph's `tokenIsEntityHead[t]`
   * holds an entity and false when it holds None; `interactions[(a, b)]` is
   * present exactly when the interaction graph `has_edge(a, b)`, and is then
   * the list `get_edge(a, b)` returns.
   */
  datatype SentenceGraph = SentenceGraph(
    sentenceId: string,
    tokens: seq<Token>,
    entityHead: map<Token, bool>,
    interactions: map<(Token, Token), seq<Edge>>)

  /** `paths[a][b]`: a shortest path from `a` to `b` in the undirected dependency graph. */
  type PathMap = map<Token, map<Token, seq<Token>>>

  /** A path runs from its source token to its target token. */
  ghost predicate PathsWellFormed(paths: PathMap)
  {
    forall a, b :: a in paths && b in paths[a] ==>
      |paths[a][b]| > 0 && paths[a][b][0] == a && paths[a][b][|paths[a][b]| - 1] == b
  }

  /**
   * The style strings the builder reads: "directed", "headsOnly", "binary",
   * "subset", "no_dependency" and "no_linear".
   */
  datatype Styles = Styles(
    directed: bool,
    headsOnly: bool,
    binary: bool,
    subset: bool,
    noDependency: bool,
    noLinear: bool)

  /** One `features[featureSet.getId(name)] = value` a feature builder performs. */
  datatype FeatureWrite = FeatureWrite(name: string, value: real)

  /**
   * The external feature builders, as the writes they perform.
   * `dependency(sg, path)` stands for the dependency-path builder's calls in
   * order (path length, terminus tokens, single elements, 2- and 3-grams,
   * path edges, sentence features); `linear(sg, index, preTag)` for one
   * `buildLinearOrderFeatures(index, sg, 2, 2, preTag)` call.
   */
  datatype Contributors = Contributors(
    dependency: (SentenceGraph, seq<Token>) -> seq<FeatureWrite>,
    linear: (SentenceGraph, nat, string) -> seq<FeatureWrite>)

  /** The constructor's arguments: styles, allowed path lengths (`length`), type allow-list. */
  datatype Config = Config(
    styles: Styles,
    pathLengths: Option<set<int>>,
    types: seq<string>,
    contributors: Contributors)
}
