/*
 * Worked examples of the coreference substitution engine, evaluated on the
 * model. Token offsets are those of the sample sentences; span-group keys
 * follow the coreference model's "coref_clusters_<n>" naming.
 */
module CorefScenarios {
  import opened Coref
  import opened CorefProperties

  /** Rendering four tokens is the concatenation of their four pieces. */
  lemma Render4(a: Token, b: Token, c: Token, d: Token, mapper: map<nat, string>)
    ensures Render([a, b, c, d], mapper) == Piece(a, mapper) + Piece(b, mapper) + Piece(c, mapper) + Piece(d, mapper)
  {
    assert [a, b, c, d][..3] == [a, b, c];
    assert [a, b, c][..2] == [a, b];
    assert [a, b][..1] == [a];
    assert [a][..0] == [];
    assert Render([a], mapper) == Piece(a, mapper);
    assert Render([a, b], mapper) == Piece(a, mapper) + Piece(b, mapper);
    assert Render([a, b, c], mapper) == Piece(a, mapper) + Piece(b, mapper) + Piece(c, mapper);
  }

  /** The writes of a single kept cluster are those of its mention loop. */
  lemma OneClusterWrites(entity: string, c: Cluster)
    requires MentionsEntity(c, entity)
    ensures AllWrites(entity, [c]) == ClusterWrites(entity, c)
  {
    assert [c][..0] == [];
  }

  /** The writes of a cluster of two mentions, the first spelling the entity. */
  lemma PairWrites(entity: string, m0: Mention, m1: Mention)
    requires m0.text == entity && m1.text != entity
    ensures ClusterWrites(entity, [m0, m1]) == MentionWrites(entity, m1)
  {
    assert [m0, m1][..1] == [m0];
    assert [m0][..0] == [];
    assert ClusterWrites(entity, [m0]) == [];
  }

  /** A cluster of two mentions with tokens cannot make the engine fail. */
  lemma PairIndexable(entity: string, m0: Mention, m1: Mention)
    requires m0.tokens != [] && m1.tokens != []
    ensures !Raises(entity, [[m0, m1]])
  {
    assert [m0, m1][..1] == [m0];
    assert [m0][..0] == [];
    assert Indexable(entity, [m0, m1]);
  }

  /** `Resolve` evaluated from its parts: the kept clusters, no failure, the map and the rebuilt text. */
  lemma ResolveIs(entity: string, groups: seq<SpanGroup>, doc: seq<Token>, clusters: seq<Cluster>, mapper: map<nat, string>, out: string)
    requires CorefClusters(groups) == clusters
    requires !Raises(entity, clusters)
    requires Apply(AllWrites(entity, clusters)) == mapper
    requires Render(doc, mapper) == out
    ensures Resolve(entity, groups, doc) == Ok(out)
  {
  }

  // ---------------------------------------------------------------------------
  // "Alice went home. She was tired."
  // ---------------------------------------------------------------------------

  const AliceHead: seq<Token> := [Token(0, "Alice", " "), Token(6, "went", " "), Token(11, "home", ""), Token(15, ".", " ")]
  const AliceTail: seq<Token> := [Token(17, "She", " "), Token(21, "was", " "), Token(25, "tired", ""), Token(30, ".", "")]

  const AliceCluster: Cluster := [Mention("Alice", [AliceHead[0]]), Mention("She", [AliceTail[0]])]

  /** A coreference group, and a group of another kind that would rewrite "home" if it were kept. */
  const AliceGroups: seq<SpanGroup> := [
    ("coref_clusters_1", AliceCluster),
    ("mentions", [Mention("Alice", [AliceHead[0]]), Mention("home", [AliceHead[2]])])
  ]

  /** Only the first group's key starts with "coref". */
  lemma AliceClusters()
    ensures CorefClusters(AliceGroups) == [AliceCluster]
  {
    assert AliceGroups == [AliceGroups[0]] + [AliceGroups[1]];
    CorefClustersAppend([AliceGroups[0]], [AliceGroups[1]]);
    CorefClustersSingle(AliceGroups[0]);
    CorefClustersSingle(AliceGroups[1]);
    assert IsCorefKey("coref_clusters_1") by {
      assert "coref_clusters_1"[..5] == CorefPrefix;
    }
    assert !IsCorefKey("mentions") by {
      assert "mentions"[0] != CorefPrefix[0];
    }
  }

  /** Spelling of the untouched first sentence. */
  lemma AliceHeadWords(a: string, b: string, c: string, d: string)
    requires a == "Alice " && b == "went " && c == "home" && d == ". "
    ensures a + b + c + d == "Alice went home. "
  {
  }

  /** Spelling of the second sentence after its first word. */
  lemma AliceTailWords(she: string, b: string, c: string, d: string)
    requires b == "was " && c == "tired" && d == "."
    ensures she + b + c + d == she + "was tired."
  {
  }

  /** Spelling of the sample with "She" replaced by "Alice". */
  lemma AliceSentenceReplaced(piece: string)
    requires piece == "Alice "
    ensures "Alice went home. " + piece + "was tired." == "Alice went home. Alice was tired."
  {
  }

  /** Spelling of the sample as the tokens give it. */
  lemma AliceSentencePlain(piece: string)
    requires piece == "She "
    ensures "Alice went home. " + piece + "was tired." == "Alice went home. She was tired."
  {
  }

  /** The sample document rebuilt when at most offset 17 ("She") is a key. */
  lemma AliceRender(mapper: map<nat, string>)
    requires forall k :: k in mapper ==> k == 17
    ensures Render(AliceHead + AliceTail, mapper) == "Alice went home. " + Piece(AliceTail[0], mapper) + "was tired."
  {
    RenderAppend(AliceHead, AliceTail, mapper);
    Render4(AliceHead[0], AliceHead[1], AliceHead[2], AliceHead[3], mapper);
    AliceHeadWords(Piece(AliceHead[0], mapper), Piece(AliceHead[1], mapper), Piece(AliceHead[2], mapper), Piece(AliceHead[3], mapper));
    Render4(AliceTail[0], AliceTail[1], AliceTail[2], AliceTail[3], mapper);
    var she := Piece(AliceTail[0], mapper);
    AliceTailWords(she, Piece(AliceTail[1], mapper), Piece(AliceTail[2], mapper), Piece(AliceTail[3], mapper));
    ConcatAssoc("Alice went home. ", she, "was tired.");
  }

  /** The writes of the sample's one cluster when the entity is "Alice": "She" becomes "Alice ". */
  lemma AliceWrites()
    ensures Apply(AllWrites("Alice", [AliceCluster])) == map[17 := "Alice "]
  {
    assert MentionsEntity(AliceCluster, "Alice") by {
      assert AliceCluster[0] in AliceCluster;
    }
    OneClusterWrites("Alice", AliceCluster);
    PairWrites("Alice", AliceCluster[0], AliceCluster[1]);
    OneTokenWrites("Alice", AliceCluster[1]);
    var w: seq<Write> := [(17, "Alice ")];
    assert AliceCluster[1].tokens[0] == Token(17, "She", " ");
    assert "Alice" + " " == "Alice ";
    assert MentionWrites("Alice", AliceCluster[1]) == w;
    assert w[..0] == [];
  }

  /** The pronoun is replaced by the entity; the group whose key does not start with "coref" is ignored. */
  lemma ScenarioReplacePronoun()
    ensures Resolve("Alice", AliceGroups, AliceHead + AliceTail) == Ok("Alice went home. Alice was tired.")
  {
    AliceClusters();
    assert AliceCluster == [AliceCluster[0], AliceCluster[1]];
    PairIndexable("Alice", AliceCluster[0], AliceCluster[1]);
    AliceWrites();
    var mp := map[17 := "Alice "];
    AliceRender(mp);
    AliceSentenceReplaced(Piece(AliceTail[0], mp));
    ResolveIs("Alice", AliceGroups, AliceHead + AliceTail, [AliceCluster], mp, "Alice went home. Alice was tired.");
  }

  /** An entity that no mention spells exactly leaves the text as the tokens give it. */
  lemma ScenarioNoMatch()
    ensures Resolve("Bob", AliceGroups, AliceHead + AliceTail) == Ok("Alice went home. She was tired.")
  {
    AliceClusters();
    assert !MentionsEntity(AliceCluster, "Bob");
    assert [AliceCluster][..0] == [];
    assert AllWrites("Bob", [AliceCluster]) == [];
    AliceRender(map[]);
    AliceSentencePlain(Piece(AliceTail[0], map[]));
    ResolveIs("Bob", AliceGroups, AliceHead + AliceTail, [AliceCluster], map[], "Alice went home. She was tired.");
  }

  // ---------------------------------------------------------------------------
  // "The old man left. He slept."
  // ---------------------------------------------------------------------------

  const ManHead: seq<Token> := [Token(0, "The", " "), Token(4, "old", " "), Token(8, "man", " "), Token(12, "left", "")]
  const ManTail: seq<Token> := [Token(16, ".", " "), Token(18, "He", " "), Token(21, "slept", ""), Token(26, ".", "")]

  const ManCluster: Cluster := [Mention("He", [ManTail[1]]), Mention("The old man", ManHead[..3])]

  /** A three-token mention writes the entity on its first token and "" on the other two. */
  lemma ThreeTokenWrites(entity: string, m: Mention)
    requires |m.tokens| == 3
    ensures MentionWrites(entity, m) == [(m.tokens[0].idx, entity + m.tokens[0].ws), (m.tokens[1].idx, ""), (m.tokens[2].idx, "")]
  {
    var rest := m.tokens[1..];
    assert rest[..1] == [m.tokens[1]] && rest[..1][..0] == [];
    assert ElideWrites(rest[..1]) == [(m.tokens[1].idx, "")];
  }

  /** Assigning three writes in turn. */
  lemma Apply3(a: Write, b: Write, c: Write)
    ensures Apply([a, b, c]) == map[a.0 := a.1][b.0 := b.1][c.0 := c.1]
  {
    assert [a, b, c][..2] == [a, b] && [a, b][..1] == [a] && [a][..0] == [];
    assert Apply([a]) == map[a.0 := a.1];
    assert Apply([a, b]) == map[a.0 := a.1][b.0 := b.1];
  }

  /** The map for entity "He": "The" becomes "He ", "old" and "man" are erased. */
  lemma ManWrites()
    ensures Apply(AllWrites("He", [ManCluster])) == map[0 := "He ", 4 := "", 8 := ""]
  {
    assert MentionsEntity(ManCluster, "He") by {
      assert ManCluster[0] in ManCluster;
    }
    OneClusterWrites("He", ManCluster);
    PairWrites("He", ManCluster[0], ManCluster[1]);
    ThreeTokenWrites("He", ManCluster[1]);
    assert "He" + " " == "He ";
    Apply3((0, "He "), (4, ""), (8, ""));
  }

  /** Spelling of the rebuilt first half, "He left". */
  lemma ManHeadWords(a: string, b: string, c: string, d: string)
    requires a == "He " && b == "" && c == "" && d == "left"
    ensures a + b + c + d == "He left"
  {
  }

  /** Spelling of the second half, ". He slept.". */
  lemma ManTailWords(a: string, b: string, c: string, d: string)
    requires a == ". " && b == "He " && c == "slept" && d == "."
    ensures a + b + c + d == ". He slept."
  {
  }

  /** The two halves joined. */
  lemma ManJoin(a: string, b: string)
    requires a == "He left" && b == ". He slept."
    ensures a + b == "He left. He slept."
  {
  }

  /** The sample rebuilt under the map for entity "He". */
  lemma ManRender()
    ensures Render(ManHead + ManTail, map[0 := "He ", 4 := "", 8 := ""]) == "He left. He slept."
  {
    var mp := map[0 := "He ", 4 := "", 8 := ""];
    RenderAppend(ManHead, ManTail, mp);
    Render4(ManHead[0], ManHead[1], ManHead[2], ManHead[3], mp);
    ManHeadWords(Piece(ManHead[0], mp), Piece(ManHead[1], mp), Piece(ManHead[2], mp), Piece(ManHead[3], mp));
    Render4(ManTail[0], ManTail[1], ManTail[2], ManTail[3], mp);
    ManTailWords(Piece(ManTail[0], mp), Piece(ManTail[1], mp), Piece(ManTail[2], mp), Piece(ManTail[3], mp));
    ManJoin(Render(ManHead, mp), Render(ManTail, mp));
  }

  /** A three-token mention collapses into the entity and the whitespace of its first token. */
  lemma ScenarioCollapse()
    ensures Resolve("He", [("coref_clusters_1", ManCluster)], ManHead + ManTail) == Ok("He left. He slept.")
  {
    var groups := [("coref_clusters_1", ManCluster)];
    CorefClustersSingle(groups[0]);
    assert IsCorefKey("coref_clusters_1") by {
      assert "coref_clusters_1"[..5] == CorefPrefix;
    }
    assert ManCluster == [ManCluster[0], ManCluster[1]];
    PairIndexable("He", ManCluster[0], ManCluster[1]);
    ManWrites();
    ManRender();
    ResolveIs("He", groups, ManHead + ManTail, [ManCluster], map[0 := "He ", 4 := "", 8 := ""], "He left. He slept.");
  }

  // ---------------------------------------------------------------------------
  // Two rules on one offset: "Alice met her sister."
  // ---------------------------------------------------------------------------

  const AliceMention: Mention := Mention("Alice", [Token(0, "Alice", " ")])

  /** One cluster rewrites "her sister" (offsets 10 and 14), another rewrites "sister" (offset 14). */
  const WideCluster: Cluster := [AliceMention, Mention("her sister", [Token(10, "her", " "), Token(14, "sister", "")])]
  const NarrowCluster: Cluster := [AliceMention, Mention("sister", [Token(14, "sister", "")])]

  /** Both keys start with "coref", so both clusters are kept, in order. */
  lemma TwoCorefClusters(k1: string, c1: Cluster, k2: string, c2: Cluster)
    requires IsCorefKey(k1) && IsCorefKey(k2)
    ensures CorefClusters([(k1, c1), (k2, c2)]) == [c1, c2]
  {
    assert [(k1, c1), (k2, c2)] == [(k1, c1)] + [(k2, c2)];
    CorefClustersAppend([(k1, c1)], [(k2, c2)]);
    CorefClustersSingle((k1, c1));
    CorefClustersSingle((k2, c2));
  }

  /** The writes of two kept clusters, in cluster order. */
  lemma TwoClusterWrites(entity: string, c0: Cluster, c1: Cluster)
    requires MentionsEntity(c0, entity) && MentionsEntity(c1, entity)
    ensures AllWrites(entity, [c0, c1]) == ClusterWrites(entity, c0) + ClusterWrites(entity, c1)
  {
    assert [c0, c1][..1] == [c0];
    OneClusterWrites(entity, c0);
  }

  /** The writes of each cluster for entity "Alice". */
  lemma SisterWrites()
    ensures MentionsEntity(WideCluster, "Alice") && MentionsEntity(NarrowCluster, "Alice")
    ensures ClusterWrites("Alice", WideCluster) == [(10, "Alice "), (14, "")]
    ensures ClusterWrites("Alice", NarrowCluster) == [(14, "Alice")]
  {
    assert WideCluster[0] in WideCluster && NarrowCluster[0] in NarrowCluster;
    PairWrites("Alice", AliceMention, WideCluster[1]);
    PairWrites("Alice", AliceMention, NarrowCluster[1]);
    OneTokenWrites("Alice", NarrowCluster[1]);
    var ts := WideCluster[1].tokens;
    assert ts[1..] == [ts[1]] && [ts[1]][..0] == [];
    assert "Alice" + " " == "Alice " && "Alice" + "" == "Alice";
  }

  /** The clusters as the model lists them: "her sister" first, then "sister". */
  const WideFirst: seq<SpanGroup> := [("coref_clusters_1", WideCluster), ("coref_clusters_2", NarrowCluster)]
  /** The same clusters in the other order. */
  const NarrowFirst: seq<SpanGroup> := [("coref_clusters_1", NarrowCluster), ("coref_clusters_2", WideCluster)]

  lemma CorefKeys()
    ensures IsCorefKey("coref_clusters_1") && IsCorefKey("coref_clusters_2")
  {
    assert "coref_clusters_1"[..5] == CorefPrefix;
    assert "coref_clusters_2"[..5] == CorefPrefix;
  }

  /** Offset 14 keeps the value of the cluster listed last: "Alice" here ... */
  lemma ScenarioLaterWriteWins()
    ensures Mapper("Alice", WideFirst)[14] == "Alice"
  {
    CorefKeys();
    TwoCorefClusters(WideFirst[0].0, WideCluster, WideFirst[1].0, NarrowCluster);
    SisterWrites();
    TwoClusterWrites("Alice", WideCluster, NarrowCluster);
    var w: seq<Write> := [(10, "Alice "), (14, ""), (14, "Alice")];
    assert [(10, "Alice "), (14, "")] + [(14, "Alice")] == w;
    ApplyLastWins(w, 2);
  }

  /** ... and "" when the clusters come in the other order: the map depends on cluster order. */
  lemma ScenarioOrderMatters()
    ensures Mapper("Alice", NarrowFirst)[14] == ""
  {
    CorefKeys();
    TwoCorefClusters(NarrowFirst[0].0, NarrowCluster, NarrowFirst[1].0, WideCluster);
    SisterWrites();
    TwoClusterWrites("Alice", NarrowCluster, WideCluster);
    var w: seq<Write> := [(14, "Alice"), (10, "Alice "), (14, "")];
    assert [(14, "Alice")] + [(10, "Alice "), (14, "")] == w;
    ApplyLastWins(w, 2);
  }
}
