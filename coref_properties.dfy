/*
 * Properties of the coreference substitution engine modelled in module Coref:
 * which offsets the replacement map touches and with what, which of two writes
 * to one offset survives, and what the rebuilt text looks like around a
 * replaced mention, an untouched token, or when nothing matches.
 */
module CorefProperties {
  import opened Coref

  // ---------------------------------------------------------------------------
  // The rules: which (offset, value) pairs the loops write
  // ---------------------------------------------------------------------------

  /** `m` (a non-matching mention) writes `v` at offset `k`: the entity on its first token, "" on a later one. */
  ghost predicate MentionRule(entity: string, m: Mention, k: nat, v: string)
  {
    exists j :: 0 <= j < |m.tokens| && m.tokens[j].idx == k && v == (if j == 0 then entity + m.tokens[0].ws else "")
  }

  /** Some non-matching mention of cluster `c` writes `v` at `k`. */
  ghost predicate ClusterRule(entity: string, c: Cluster, k: nat, v: string)
  {
    exists m :: m in c && m.text != entity && MentionRule(entity, m, k, v)
  }

  /** Some non-matching mention of some cluster that mentions the entity writes `v` at `k`. */
  ghost predicate IsRule(entity: string, clusters: seq<Cluster>, k: nat, v: string)
  {
    exists c :: c in clusters && MentionsEntity(c, entity) && ClusterRule(entity, c, k, v)
  }

  /** Offset `k` starts some token of a non-matching mention of a cluster that mentions the entity. */
  ghost predicate Targeted(entity: string, clusters: seq<Cluster>, k: nat)
  {
    exists c, m, j :: c in clusters && MentionsEntity(c, entity) && m in c && m.text != entity
                      && 0 <= j < |m.tokens| && m.tokens[j].idx == k
  }

  /** The erasing writes put "" at exactly the offsets of the given tokens. */
  lemma {:induction false} ElideWritesIn(ts: seq<Token>, k: nat, v: string)
    ensures (k, v) in ElideWrites(ts) <==> v == "" && exists j :: 0 <= j < |ts| && ts[j].idx == k
    decreases |ts|
  {
    if ts != [] {
      var init := ts[..|ts| - 1];
      ElideWritesIn(init, k, v);
      if v == "" && exists j :: 0 <= j < |ts| && ts[j].idx == k {
        var j :| 0 <= j < |ts| && ts[j].idx == k;
        if j < |ts| - 1 {
          assert init[j] == ts[j];
        }
      }
    }
  }

  /** A mention's writes are exactly its rules: entity plus whitespace on the first token, "" on each later one. */
  lemma MentionWritesIn(entity: string, m: Mention, k: nat, v: string)
    ensures (k, v) in MentionWrites(entity, m) <==> MentionRule(entity, m, k, v)
  {
    if m.tokens != [] {
      var rest := m.tokens[1..];
      ElideWritesIn(rest, k, v);
      if (k, v) in MentionWrites(entity, m) {
        if (k, v) != (m.tokens[0].idx, entity + m.tokens[0].ws) {
          var j :| 0 <= j < |rest| && rest[j].idx == k;
          assert m.tokens[j + 1].idx == k;
        }
      }
      if MentionRule(entity, m, k, v) {
        var j :| 0 <= j < |m.tokens| && m.tokens[j].idx == k && v == (if j == 0 then entity + m.tokens[0].ws else "");
        if j > 0 {
          assert rest[j - 1].idx == k;
        }
      }
    }
  }

  /** A one-token mention has no later tokens to erase: its only write is the entity and its whitespace. */
  lemma OneTokenWrites(entity: string, m: Mention)
    requires |m.tokens| == 1
    ensures MentionWrites(entity, m) == [(m.tokens[0].idx, entity + m.tokens[0].ws)]
  {
    assert m.tokens[1..] == [];
  }

  /** A cluster's rules are those of all but its last mention, plus the last mention's own if it does not match. */
  lemma ClusterRuleStep(entity: string, ms: Cluster, k: nat, v: string)
    requires ms != []
    ensures ClusterRule(entity, ms, k, v) <==>
      ClusterRule(entity, ms[..|ms| - 1], k, v) || (ms[|ms| - 1].text != entity && MentionRule(entity, ms[|ms| - 1], k, v))
  {
    var init := ms[..|ms| - 1];
    var last := ms[|ms| - 1];
    if ClusterRule(entity, ms, k, v) {
      var m :| m in ms && m.text != entity && MentionRule(entity, m, k, v);
      if m != last {
        assert m in init;
      }
    }
    if ClusterRule(entity, init, k, v) {
      var m :| m in init && m.text != entity && MentionRule(entity, m, k, v);
      assert m in ms;
    }
  }

  /** The mention loop writes exactly the rules of the mentions whose text is not the entity. */
  lemma {:induction false} ClusterWritesIn(entity: string, ms: Cluster, k: nat, v: string)
    ensures (k, v) in ClusterWrites(entity, ms) <==> ClusterRule(entity, ms, k, v)
    decreases |ms|
  {
    if ms != [] {
      var init := ms[..|ms| - 1];
      var last := ms[|ms| - 1];
      ClusterWritesIn(entity, init, k, v);
      MentionWritesIn(entity, last, k, v);
      ClusterRuleStep(entity, ms, k, v);
    }
  }

  /** The cluster loop writes exactly the rules of the clusters that mention the entity. */
  lemma {:induction false} AllWritesIn(entity: string, clusters: seq<Cluster>, k: nat, v: string)
    ensures (k, v) in AllWrites(entity, clusters) <==> IsRule(entity, clusters, k, v)
    decreases |clusters|
  {
    if clusters != [] {
      var init := clusters[..|clusters| - 1];
      var last := clusters[|clusters| - 1];
      AllWritesIn(entity, init, k, v);
      ClusterWritesIn(entity, last, k, v);
      if IsRule(entity, clusters, k, v) {
        var c :| c in clusters && MentionsEntity(c, entity) && ClusterRule(entity, c, k, v);
        if c != last {
          assert c in init;
        }
      }
      if IsRule(entity, init, k, v) {
        var c :| c in init && MentionsEntity(c, entity) && ClusterRule(entity, c, k, v);
        assert c in clusters;
      }
    }
  }

  // ---------------------------------------------------------------------------
  // Dictionary assignment: the last write to an offset wins
  // ---------------------------------------------------------------------------

  /** The keys of the map are exactly the offsets written. */
  lemma {:induction false} ApplyKeys(w: seq<Write>, k: nat)
    ensures k in Apply(w) <==> exists i :: 0 <= i < |w| && w[i].0 == k
    decreases |w|
  {
    if w != [] {
      var init := w[..|w| - 1];
      ApplyKeys(init, k);
      if exists i :: 0 <= i < |init| && init[i].0 == k {
        var i :| 0 <= i < |init| && init[i].0 == k;
        assert w[i] == init[i];
      }
    }
  }

  /** A write that no later write to the same offset follows is the value the map keeps. */
  lemma {:induction false} ApplyLastWins(w: seq<Write>, i: nat)
    requires i < |w|
    requires forall j :: i < j < |w| ==> w[j].0 != w[i].0
    ensures w[i].0 in Apply(w) && Apply(w)[w[i].0] == w[i].1
    decreases |w|
  {
    if i < |w| - 1 {
      var init := w[..|w| - 1];
      assert init[i] == w[i];
      forall j | i < j < |init|
        ensures init[j].0 != init[i].0
      {
        assert init[j] == w[j];
      }
      ApplyLastWins(init, i);
    }
  }

  /** Every value in the map is that of the last write to its offset. */
  lemma {:induction false} ApplyValue(w: seq<Write>, k: nat)
    requires k in Apply(w)
    ensures exists i :: 0 <= i < |w| && w[i] == (k, Apply(w)[k]) && forall j :: i < j < |w| ==> w[j].0 != k
    decreases |w|
  {
    var last := w[|w| - 1];
    var init := w[..|w| - 1];
    if last.0 != k {
      ApplyValue(init, k);
      var i :| 0 <= i < |init| && init[i] == (k, Apply(init)[k]) && forall j :: i < j < |init| ==> init[j].0 != k;
      assert w[i] == init[i];
      forall j | i < j < |w|
        ensures w[j].0 != k
      {
        if j < |init| {
          assert w[j] == init[j];
        }
      }
    }
  }

  /** No two writes of the log give one offset different values. */
  ghost predicate Consistent(w: seq<Write>)
  {
    forall i, j :: 0 <= i < |w| && 0 <= j < |w| && w[i].0 == w[j].0 ==> w[i].1 == w[j].1
  }

  /** Without conflicting writes, every write is what the map holds. */
  lemma ApplyConsistent(w: seq<Write>, k: nat, v: string)
    requires Consistent(w)
    requires (k, v) in w
    ensures k in Apply(w) && Apply(w)[k] == v
  {
    var i0 :| 0 <= i0 < |w| && w[i0] == (k, v);
    ApplyKeys(w, k);
    ApplyValue(w, k);
    var i :| 0 <= i < |w| && w[i] == (k, Apply(w)[k]) && forall j :: i < j < |w| ==> w[j].0 != k;
  }

  // ---------------------------------------------------------------------------
  // The replacement map
  // ---------------------------------------------------------------------------

  /** A key of the map starts a token of a non-matching mention in a kept cluster that mentions the entity. */
  lemma KeyTargeted(entity: string, clusters: seq<Cluster>, k: nat)
    requires k in Apply(AllWrites(entity, clusters))
    ensures Targeted(entity, clusters, k)
  {
    var w := AllWrites(entity, clusters);
    ApplyKeys(w, k);
    var i :| 0 <= i < |w| && w[i].0 == k;
    var v := w[i].1;
    assert (k, v) in w;
    AllWritesIn(entity, clusters, k, v);
    var c :| c in clusters && MentionsEntity(c, entity) && ClusterRule(entity, c, k, v);
    var m :| m in c && m.text != entity && MentionRule(entity, m, k, v);
    var j :| 0 <= j < |m.tokens| && m.tokens[j].idx == k && v == (if j == 0 then entity + m.tokens[0].ws else "");
  }

  /** Every targeted offset is written, so it is a key of the map. */
  lemma TargetedKey(entity: string, clusters: seq<Cluster>, k: nat)
    requires Targeted(entity, clusters, k)
    ensures k in Apply(AllWrites(entity, clusters))
  {
    var w := AllWrites(entity, clusters);
    var c, m, j :| c in clusters && MentionsEntity(c, entity) && m in c && m.text != entity
                   && 0 <= j < |m.tokens| && m.tokens[j].idx == k;
    var v := if j == 0 then entity + m.tokens[0].ws else "";
    assert MentionRule(entity, m, k, v);
    assert ClusterRule(entity, c, k, v);
    AllWritesIn(entity, clusters, k, v);
    var i :| 0 <= i < |w| && w[i] == (k, v);
    ApplyKeys(w, k);
  }

  /** The map's keys are exactly the offsets of tokens of non-matching mentions in kept clusters that mention the entity. */
  lemma MapperKeys(entity: string, groups: seq<SpanGroup>, k: nat)
    ensures k in Mapper(entity, groups) <==> Targeted(entity, CorefClusters(groups), k)
  {
    if k in Mapper(entity, groups) {
      KeyTargeted(entity, CorefClusters(groups), k);
    }
    if Targeted(entity, CorefClusters(groups), k) {
      TargetedKey(entity, CorefClusters(groups), k);
    }
  }

  /** Each value in the map comes from a rule: the entity plus whitespace, or "". */
  lemma MapperValue(entity: string, groups: seq<SpanGroup>, k: nat)
    requires k in Mapper(entity, groups)
    ensures IsRule(entity, CorefClusters(groups), k, Mapper(entity, groups)[k])
  {
    var w := AllWrites(entity, CorefClusters(groups));
    ApplyValue(w, k);
    var i :| 0 <= i < |w| && w[i] == (k, Apply(w)[k]) && forall j :: i < j < |w| ==> w[j].0 != k;
    AllWritesIn(entity, CorefClusters(groups), k, Apply(w)[k]);
  }

  /** When no two rules clash, the map holds every rule: a mention's first token maps to the
      entity plus that token's whitespace and each later token maps to "". */
  lemma MapperRule(entity: string, groups: seq<SpanGroup>, k: nat, v: string)
    requires Consistent(AllWrites(entity, CorefClusters(groups)))
    requires IsRule(entity, CorefClusters(groups), k, v)
    ensures k in Mapper(entity, groups) && Mapper(entity, groups)[k] == v
  {
    AllWritesIn(entity, CorefClusters(groups), k, v);
    ApplyConsistent(AllWrites(entity, CorefClusters(groups)), k, v);
  }

  /** With no kept cluster mentioning the entity, nothing is written and the map stays empty. */
  lemma {:induction false} NoMatchNoWrites(entity: string, clusters: seq<Cluster>)
    requires forall c :: c in clusters ==> !MentionsEntity(c, entity)
    ensures AllWrites(entity, clusters) == []
    decreases |clusters|
  {
    if clusters != [] {
      var init := clusters[..|clusters| - 1];
      assert clusters[|clusters| - 1] in clusters;
      forall c | c in init
        ensures !MentionsEntity(c, entity)
      {
        assert c in clusters;
      }
      NoMatchNoWrites(entity, init);
    }
  }

  // ---------------------------------------------------------------------------
  // The rebuilt text
  // ---------------------------------------------------------------------------

  /** Rendering one more token of the stream appends that token's piece. */
  lemma RenderStep(doc: seq<Token>, i: nat, mapper: map<nat, string>)
    requires i < |doc|
    ensures Render(doc[..i + 1], mapper) == Render(doc[..i], mapper) + Piece(doc[i], mapper)
  {
    assert doc[..i + 1][..i] == doc[..i];
  }

  /** The output of a concatenated token stream is the concatenation of the outputs. */
  lemma {:induction false} RenderAppend(d1: seq<Token>, d2: seq<Token>, mapper: map<nat, string>)
    ensures Render(d1 + d2, mapper) == Render(d1, mapper) + Render(d2, mapper)
    decreases |d2|
  {
    if d2 == [] {
      assert d1 + d2 == d1;
    } else {
      var init, last := d2[..|d2| - 1], d2[|d2| - 1];
      assert d1 + d2 == (d1 + init) + [last];
      RenderAppend(d1, init, mapper);
      ConcatAssoc(Render(d1, mapper), Render(init, mapper), Piece(last, mapper));
    }
  }

  /** Tokens whose offsets are not keys pass through with their own text and whitespace. */
  lemma {:induction false} RenderUntouched(doc: seq<Token>, mapper: map<nat, string>)
    requires forall t :: t in doc ==> t.idx !in mapper
    ensures Render(doc, mapper) == Plain(doc)
    decreases |doc|
  {
    if doc != [] {
      var init := doc[..|doc| - 1];
      assert doc[|doc| - 1] in doc;
      forall t | t in init
        ensures t.idx !in mapper
      {
        assert t in doc;
      }
      RenderUntouched(init, mapper);
    }
  }

  /** Tokens whose offsets all map to "" contribute nothing. */
  lemma {:induction false} RenderElided(ts: seq<Token>, mapper: map<nat, string>)
    requires forall t :: t in ts ==> t.idx in mapper && mapper[t.idx] == ""
    ensures Render(ts, mapper) == ""
    decreases |ts|
  {
    if ts != [] {
      var init := ts[..|ts| - 1];
      assert ts[|ts| - 1] in ts;
      forall t | t in init
        ensures t.idx in mapper && mapper[t.idx] == ""
      {
        assert t in ts;
      }
      RenderElided(init, mapper);
    }
  }

  /** A mention whose first offset maps to the entity plus whitespace and whose later offsets
      map to "" renders as that single piece. */
  lemma RenderMention(m: Mention, entity: string, mapper: map<nat, string>)
    requires m.tokens != []
    requires m.tokens[0].idx in mapper && mapper[m.tokens[0].idx] == entity + m.tokens[0].ws
    requires forall j :: 1 <= j < |m.tokens| ==> m.tokens[j].idx in mapper && mapper[m.tokens[j].idx] == ""
    ensures Render(m.tokens, mapper) == entity + m.tokens[0].ws
  {
    var first, rest := m.tokens[0], m.tokens[1..];
    forall t | t in rest
      ensures t.idx in mapper && mapper[t.idx] == ""
    {
      var j :| 0 <= j < |rest| && rest[j] == t;
      assert m.tokens[j + 1] == t;
    }
    RenderElided(rest, mapper);
    assert m.tokens == [first] + rest;
    RenderAppend([first], rest, mapper);
    assert [first][..0] == [];
  }

  /** ... and between the untouched surroundings the rebuilt text holds exactly that piece. */
  lemma RenderCollapse(pre: seq<Token>, m: Mention, post: seq<Token>, entity: string, mapper: map<nat, string>)
    requires m.tokens != []
    requires m.tokens[0].idx in mapper && mapper[m.tokens[0].idx] == entity + m.tokens[0].ws
    requires forall j :: 1 <= j < |m.tokens| ==> m.tokens[j].idx in mapper && mapper[m.tokens[j].idx] == ""
    ensures Render(pre + m.tokens + post, mapper)
         == Render(pre, mapper) + entity + m.tokens[0].ws + Render(post, mapper)
  {
    RenderMention(m, entity, mapper);
    RenderAppend(pre + m.tokens, post, mapper);
    RenderAppend(pre, m.tokens, mapper);
    ConcatAssoc(Render(pre, mapper), entity, m.tokens[0].ws);
  }

  // ---------------------------------------------------------------------------
  // The engine end to end
  // ---------------------------------------------------------------------------

  /** Identity: with no kept cluster mentioning the entity, the output is the tokens' own text,
      which is the input text whenever the tokens reconstruct it. */
  lemma ResolveNoMatch(entity: string, groups: seq<SpanGroup>, doc: seq<Token>, text: string)
    requires forall c :: c in CorefClusters(groups) ==> !MentionsEntity(c, entity)
    requires Plain(doc) == text
    ensures Mapper(entity, groups) == map[]
    ensures Resolve(entity, groups, doc) == Ok(text)
  {
    NoMatchNoWrites(entity, CorefClusters(groups));
    RenderUntouched(doc, map[]);
  }

  /** Collapse: a non-matching mention of a cluster that mentions the entity becomes the
      entity followed by its first token's whitespace, and nothing of its later tokens remains. */
  lemma ResolveCollapse(entity: string, groups: seq<SpanGroup>, pre: seq<Token>, m: Mention, post: seq<Token>)
    requires !Raises(entity, CorefClusters(groups))
    requires Consistent(AllWrites(entity, CorefClusters(groups)))
    requires exists c :: c in CorefClusters(groups) && MentionsEntity(c, entity) && m in c
    requires m.text != entity
    ensures m.tokens != []
    ensures Resolve(entity, groups, pre + m.tokens + post)
         == Ok(Render(pre, Mapper(entity, groups)) + entity + m.tokens[0].ws + Render(post, Mapper(entity, groups)))
  {
    var clusters := CorefClusters(groups);
    var c :| c in clusters && MentionsEntity(c, entity) && m in c;
    assert Indexable(entity, c);
    IndexableIff(entity, c);
    var mp := Mapper(entity, groups);
    assert MentionRule(entity, m, m.tokens[0].idx, entity + m.tokens[0].ws);
    MapperRule(entity, groups, m.tokens[0].idx, entity + m.tokens[0].ws);
    forall j | 1 <= j < |m.tokens|
      ensures m.tokens[j].idx in mp && mp[m.tokens[j].idx] == ""
    {
      assert MentionRule(entity, m, m.tokens[j].idx, "");
      MapperRule(entity, groups, m.tokens[j].idx, "");
    }
    RenderCollapse(pre, m, post, entity, mp);
  }

  /** Pass-through: a token no rule targets appears unchanged, in place, with its own whitespace. */
  lemma ResolvePassThrough(entity: string, groups: seq<SpanGroup>, pre: seq<Token>, t: Token, post: seq<Token>)
    requires !Raises(entity, CorefClusters(groups))
    requires !Targeted(entity, CorefClusters(groups), t.idx)
    ensures Resolve(entity, groups, pre + [t] + post)
         == Ok(Render(pre, Mapper(entity, groups)) + t.text + t.ws + Render(post, Mapper(entity, groups)))
  {
    var mp := Mapper(entity, groups);
    MapperKeys(entity, groups, t.idx);
    RenderAppend(pre + [t], post, mp);
    assert (pre + [t])[..|pre|] == pre;
    ConcatAssoc(Render(pre, mp), t.text, t.ws);
  }
}
