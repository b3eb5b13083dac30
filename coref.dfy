/*
 * Coreference substitution engine of `resolve_coref` (utils.py).
 *
 * The coreference model is not part of this model: its output, the document's
 * token stream and its named span groups, is taken as input. The engine keeps
 * the span groups whose key starts with "coref", builds a replacement map keyed
 * by token start offset, and rebuilds the text in one pass over the tokens.
 *
 * The map is specified through its write log: `AllWrites` lists the dictionary
 * assignments the nested loops perform, in loop order, and `Apply` folds them
 * into a map with plain overwrite, so the later of two writes to one offset wins.
 */
module Coref {

  /** A token of the document: start offset, surface text and trailing whitespace. */
  datatype Token = Token(idx: nat, text: string, ws: string)

  /** A mention: its surface text, as supplied by the model, and its tokens in order. */
  datatype Mention = Mention(text: string, tokens: seq<Token>)

  /** A cluster of mentions the model claims co-refer. */
  type Cluster = seq<Mention>

  /** A named span group, in the model's own iteration order. */
  type SpanGroup = (string, Cluster)

  /** One dictionary assignment `mapper[offset] = value`. */
  type Write = (nat, string)

  /** The one failure of the engine: indexing the first token of a mention that has none. */
  datatype Error = EmptyMention

  datatype Result<T> = Ok(value: T) | Err(error: Error)

  const CorefPrefix: string := "coref"

  predicate IsCorefKey(key: string)
  {
    CorefPrefix <= key
  }

  /** Concatenation is associative (stated once, so that proofs about logs and text need not re-derive it). */
  lemma ConcatAssoc<T>(a: seq<T>, b: seq<T>, c: seq<T>)
    ensures (a + b) + c == a + (b + c)
  {
  }

  // ---------------------------------------------------------------------------
  // Step 1: the span-group filter
  // ---------------------------------------------------------------------------

  /** The clusters of the span groups whose key starts with "coref", in input order. */
  function CorefClusters(groups: seq<SpanGroup>): (r: seq<Cluster>)
    ensures |r| <= |groups|
    ensures forall c :: c in r ==>
      exists i :: 0 <= i < |groups| && IsCorefKey(groups[i].0) && groups[i].1 == c
    ensures forall i :: 0 <= i < |groups| && IsCorefKey(groups[i].0) ==> groups[i].1 in r
  {
    if groups == [] then []
    else
      var last := groups[|groups| - 1];
      CorefClusters(groups[..|groups| - 1]) + (if IsCorefKey(last.0) then [last.1] else [])
  }

  /** The filter distributes over concatenation: it keeps the kept groups in their order. */
  lemma {:induction false} CorefClustersAppend(g1: seq<SpanGroup>, g2: seq<SpanGroup>)
    ensures CorefClusters(g1 + g2) == CorefClusters(g1) + CorefClusters(g2)
    decreases |g2|
  {
    if g2 == [] {
      assert g1 + g2 == g1;
    } else {
      var init := g2[..|g2| - 1];
      var last := g2[|g2| - 1];
      assert (g1 + g2)[..|g1 + g2| - 1] == g1 + init;
      assert (g1 + g2)[|g1 + g2| - 1] == last;
      CorefClustersAppend(g1, init);
    }
  }

  /** A single group is kept exactly when its key starts with "coref". */
  lemma CorefClustersSingle(g: SpanGroup)
    ensures CorefClusters([g]) == if IsCorefKey(g.0) then [g.1] else []
  {
    assert [g][..0] == [];
  }

  // ---------------------------------------------------------------------------
  // Step 2: the replacement map, as a write log
  // ---------------------------------------------------------------------------

  /** Some mention of the cluster has exactly the entity's text. */
  predicate MentionsEntity(cluster: Cluster, entity: string)
  {
    exists m :: m in cluster && m.text == entity
  }

  /** The writes erasing the tokens after a mention's first one. */
  function ElideWrites(ts: seq<Token>): seq<Write>
  {
    if ts == [] then []
    else ElideWrites(ts[..|ts| - 1]) + [(ts[|ts| - 1].idx, "")]
  }

  /** The writes for one non-matching mention: entity on its first token, "" on the others. */
  function MentionWrites(entity: string, m: Mention): seq<Write>
  {
    if m.tokens == [] then []
    else [(m.tokens[0].idx, entity + m.tokens[0].ws)] + ElideWrites(m.tokens[1..])
  }

  /** The writes of the mention loop over a cluster: exact matches are skipped. */
  function ClusterWrites(entity: string, ms: Cluster): seq<Write>
  {
    if ms == [] then []
    else
      var last := ms[|ms| - 1];
      ClusterWrites(entity, ms[..|ms| - 1]) + (if last.text == entity then [] else MentionWrites(entity, last))
  }

  /** The writes of the whole cluster loop: clusters without the entity are skipped. */
  function AllWrites(entity: string, clusters: seq<Cluster>): seq<Write>
  {
    if clusters == [] then []
    else
      var last := clusters[|clusters| - 1];
      AllWrites(entity, clusters[..|clusters| - 1]) + (if MentionsEntity(last, entity) then ClusterWrites(entity, last) else [])
  }

  /** Plain dictionary assignment of each write in turn, starting from the empty map. */
  function Apply(w: seq<Write>): map<nat, string>
  {
    if w == [] then map[]
    else Apply(w[..|w| - 1])[w[|w| - 1].0 := w[|w| - 1].1]
  }

  /** Every mention of `ms` other than the entity's own has a first token to index. */
  predicate Indexable(entity: string, ms: Cluster)
  {
    ms == [] ||
    (Indexable(entity, ms[..|ms| - 1]) && (ms[|ms| - 1].text == entity || ms[|ms| - 1].tokens != []))
  }

  /** `Indexable` says exactly that every non-matching mention has a token. */
  lemma {:induction false} IndexableIff(entity: string, ms: Cluster)
    ensures Indexable(entity, ms) <==> forall m :: m in ms && m.text != entity ==> m.tokens != []
    decreases |ms|
  {
    if ms != [] {
      var init := ms[..|ms| - 1];
      IndexableIff(entity, init);
      assert forall m :: m in ms <==> m in init || m == ms[|ms| - 1] by {
        assert ms == init + [ms[|ms| - 1]];
      }
    }
  }

  /** The engine fails exactly when some kept cluster is not indexable. */
  predicate Raises(entity: string, clusters: seq<Cluster>)
  {
    exists c :: c in clusters && MentionsEntity(c, entity) && !Indexable(entity, c)
  }

  /** The replacement map of `resolve_coref`. */
  function Mapper(entity: string, groups: seq<SpanGroup>): map<nat, string>
  {
    Apply(AllWrites(entity, CorefClusters(groups)))
  }

  // ---------------------------------------------------------------------------
  // Step 3: output reconstruction
  // ---------------------------------------------------------------------------

  /** What one token contributes: its map value if its offset is a key, else itself. */
  function Piece(t: Token, mapper: map<nat, string>): string
  {
    if t.idx in mapper then mapper[t.idx] else t.text + t.ws
  }

  /** The in-order concatenation of one piece per token. */
  function Render(doc: seq<Token>, mapper: map<nat, string>): string
  {
    if doc == [] then ""
    else Render(doc[..|doc| - 1], mapper) + Piece(doc[|doc| - 1], mapper)
  }

  /** The text the tokens reconstruct on their own: each token's text and whitespace. */
  function Plain(doc: seq<Token>): string
  {
    if doc == [] then ""
    else Plain(doc[..|doc| - 1]) + doc[|doc| - 1].text + doc[|doc| - 1].ws
  }

  /** What `resolve_coref` returns, or the failure it raises. */
  function Resolve(entity: string, groups: seq<SpanGroup>, doc: seq<Token>): Result<string>
  {
    if Raises(entity, CorefClusters(groups)) then Err(EmptyMention)
    else Ok(Render(doc, Mapper(entity, groups)))
  }

  // ---------------------------------------------------------------------------
  // The engine, loop for loop
  // ---------------------------------------------------------------------------

  /** Lines 70-74: the first token gets the entity, every later token is erased. */
  method MapMention(entity: string, mention: Mention, mapper: map<nat, string>, ghost written: seq<Write>)
    returns (mapper': map<nat, string>, ghost written': seq<Write>)
    requires mention.tokens != []
    requires mapper == Apply(written)
    ensures written' == written + MentionWrites(entity, mention)
    ensures mapper' == Apply(written')
  {
    var first := mention.tokens[0];
    mapper' := mapper[first.idx := entity + first.ws];
    written' := written + [(first.idx, entity + first.ws)];
    assert written'[..|written'| - 1] == written;
    var rest := mention.tokens[1..];
    for ti := 0 to |rest|
      invariant written' == written + [(first.idx, entity + first.ws)] + ElideWrites(rest[..ti])
      invariant mapper' == Apply(written')
    {
      assert rest[..ti + 1][..ti] == rest[..ti];
      ghost var before := written';
      mapper' := mapper'[rest[ti].idx := ""];
      written' := written' + [(rest[ti].idx, "")];
      assert written'[..|written'| - 1] == before;
      ConcatAssoc(written + [(first.idx, entity + first.ws)], ElideWrites(rest[..ti]), [(rest[ti].idx, "")]);
    }
    assert rest[..|rest|] == rest;
    ConcatAssoc(written, [(first.idx, entity + first.ws)], ElideWrites(rest));
  }

  /** Extending the processed clusters by one that is skipped or indexable keeps the engine from failing. */
  lemma NoRaisesStep(entity: string, clusters: seq<Cluster>, ci: nat)
    requires ci < |clusters|
    requires !Raises(entity, clusters[..ci])
    requires MentionsEntity(clusters[ci], entity) ==> Indexable(entity, clusters[ci])
    ensures !Raises(entity, clusters[..ci + 1])
  {
    forall c | c in clusters[..ci + 1] && MentionsEntity(c, entity)
      ensures Indexable(entity, c)
    {
      if c !in clusters[..ci] {
        assert c == clusters[ci];
      }
    }
  }

  /** The mention loop's writes grow by one mention at a time. */
  lemma ClusterWritesStep(entity: string, cluster: Cluster, mi: nat)
    requires mi < |cluster|
    ensures ClusterWrites(entity, cluster[..mi + 1]) ==
      ClusterWrites(entity, cluster[..mi]) + (if cluster[mi].text == entity then [] else MentionWrites(entity, cluster[mi]))
  {
    assert cluster[..mi + 1][..mi] == cluster[..mi];
  }

  /** A matching or non-empty mention keeps the processed prefix indexable. */
  lemma IndexableStep(entity: string, cluster: Cluster, mi: nat)
    requires mi < |cluster|
    requires Indexable(entity, cluster[..mi])
    requires cluster[mi].text == entity || cluster[mi].tokens != []
    ensures Indexable(entity, cluster[..mi + 1])
  {
    assert cluster[..mi + 1][..mi] == cluster[..mi];
  }

  /** A non-matching mention without tokens makes the cluster fail. */
  lemma NotIndexable(entity: string, cluster: Cluster, mi: nat)
    requires mi < |cluster|
    requires cluster[mi].text != entity && cluster[mi].tokens == []
    ensures !Indexable(entity, cluster)
  {
    IndexableIff(entity, cluster);
    assert cluster[mi] in cluster;
  }

  /** Lines 65-74: the mention loop over a kept cluster, stopping at a mention without tokens. */
  method MapCluster(entity: string, cluster: Cluster, mapper: map<nat, string>, ghost written: seq<Write>)
    returns (ok: bool, mapper': map<nat, string>, ghost written': seq<Write>)
    requires mapper == Apply(written)
    ensures ok <==> Indexable(entity, cluster)
    ensures ok ==> written' == written + ClusterWrites(entity, cluster) && mapper' == Apply(written')
  {
    mapper', written' := mapper, written;
    for mi := 0 to |cluster|
      invariant written' == written + ClusterWrites(entity, cluster[..mi])
      invariant mapper' == Apply(written')
      invariant Indexable(entity, cluster[..mi])
    {
      var mention := cluster[mi];
      ClusterWritesStep(entity, cluster, mi);
      if mention.text == entity {
        IndexableStep(entity, cluster, mi);
        continue;
      }
      if |mention.tokens| == 0 {
        NotIndexable(entity, cluster, mi);
        return false, mapper', written';
      }
      IndexableStep(entity, cluster, mi);
      mapper', written' := MapMention(entity, mention, mapper', written');
      ConcatAssoc(written, ClusterWrites(entity, cluster[..mi]), MentionWrites(entity, mention));
    }
    assert cluster[..|cluster|] == cluster;
    ok := true;
  }

  /** Lines 54-74: the cluster loop that fills `mapper` by dictionary assignment. */
  method BuildMapper(entity: string, clusters: seq<Cluster>) returns (r: Result<map<nat, string>>)
    ensures r.Err? <==> Raises(entity, clusters)
    ensures r.Ok? ==> r.value == Apply(AllWrites(entity, clusters))
  {
    var mapper: map<nat, string> := map[];
    ghost var written: seq<Write> := [];

    for ci := 0 to |clusters|
      invariant written == AllWrites(entity, clusters[..ci])
      invariant mapper == Apply(written)
      invariant !Raises(entity, clusters[..ci])
    {
      var cluster := clusters[ci];
      assert clusters[..ci + 1][..ci] == clusters[..ci];
      if !MentionsEntity(cluster, entity) {
        NoRaisesStep(entity, clusters, ci);
        continue;
      }
      var ok;
      ok, mapper, written := MapCluster(entity, cluster, mapper, written);
      if !ok {
        assert cluster in clusters;
        return Err(EmptyMention);
      }
      NoRaisesStep(entity, clusters, ci);
    }
    assert clusters[..|clusters|] == clusters;
    return Ok(mapper);
  }

  /** Lines 77-81: one pass over the tokens appending a piece per token to `output`. */
  method Rebuild(doc: seq<Token>, mapper: map<nat, string>) returns (output: string)
    ensures output == Render(doc, mapper)
  {
    output := "";
    for i := 0 to |doc|
      invariant output == Render(doc[..i], mapper)
    {
      assert doc[..i + 1][..i] == doc[..i];
      var token := doc[i];
      if token.idx in mapper {
        output := output + mapper[token.idx];
      } else {
        output := output + token.text + token.ws;
      }
    }
    assert doc[..|doc|] == doc;
  }

  /** `resolve_coref` after the model call: filter, build the map, rebuild the text. */
  method ResolveCoref(entity: string, groups: seq<SpanGroup>, doc: seq<Token>) returns (r: Result<string>)
    ensures r == Resolve(entity, groups, doc)
  {
    var clusters := CorefClusters(groups);
    var built := BuildMapper(entity, clusters);
    if built.Err? {
      return Err(built.error);
    }
    var output := Rebuild(doc, built.value);
    return Ok(output);
  }
}
