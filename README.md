# Coreference substitution engine, modelled in Dafny

This project models the core of `resolve_coref` in `utils.py` (entity-framing).
Given an entity string, the token stream of a document and the named span groups a
coreference model produced for it, the function rewrites the document. Every other
mention of each cluster that mentions the entity is replaced by the entity's text,
and everything else is kept exactly, whitespace included.

It works in three steps, each modelled here:

1. **Filter** (`Coref.CorefClusters`): keep the span groups whose key starts with
   `"coref"`, in the order the model lists them.
2. **Replacement map** (`Coref.BuildMapper`, `Coref.MapCluster`, `Coref.MapMention`):
   the nested loops assign `mapper[offset]` for each cluster that has a mention
   spelled exactly like the entity. For every other mention of such a cluster, the
   first token's offset gets the entity plus that token's trailing whitespace. Each
   later token's offset gets `""`. The map is specified by its *write log*:
   `Coref.AllWrites` lists the assignments in loop order, and `Coref.Apply` performs
   them with plain overwrite, as a Python dict does. When two writes hit one offset,
   the later one wins.
3. **Output** (`Coref.Rebuild`): one pass over the tokens. A token emits its map
   value if its offset is a key, and otherwise its own text and trailing whitespace.

`Coref.ResolveCoref` chains the three steps and is proved equal to the functional
specification `Coref.Resolve`. The loops are split into one method per loop level
(cluster, mention, token), each proved against its part of the specification.

Inputs stand in for the coreference model. A token is `Token(idx, text, ws)`: its
start offset, its text and its trailing whitespace. A mention is its given text plus
its tokens. A cluster is a sequence of mentions. The span groups are a sequence of
`(key, cluster)` pairs in dictionary order.

`mention[0]` on a mention without tokens raises `IndexError`. The model returns
`Err(EmptyMention)` in that case (`Coref.Raises`). That only happens for a
non-matching mention of a cluster that mentions the entity: the loops never index
any other mention.

Two consequences of the code are worth stating outright:

- Cluster order matters. The later of two writes to one offset wins, so swapping
  two clusters can change the output (`CorefScenarios.ScenarioLaterWriteWins`,
  `CorefScenarios.ScenarioOrderMatters`).
- Only an empty mention fails, and only when `mention[0]` indexes it. Contiguity
  of a mention's tokens and uniqueness of token offsets are never checked.

## Model

| member | source | states |
|---|---|---|
| `Coref.CorefClusters` | utils.py:53 | Every kept cluster comes from a group whose key starts with "coref", every such group's cluster is kept, and the result is no longer than the input. |
| `Coref.CorefClustersAppend` | utils.py:53 | The filter distributes over concatenation, so kept groups stay in their original order. |
| `Coref.CorefClustersSingle` | utils.py:53 | A single group is kept exactly when its key has the prefix "coref". |
| `Coref.MapMention` | utils.py:69-74 | Assigning the first token's entry and then erasing the later tokens appends exactly that mention's writes to the log, and the map equals the log applied. |
| `Coref.MapCluster` | utils.py:65-74 | The mention loop succeeds exactly when every non-matching mention has a token. On success it appends that cluster's writes (exact matches skipped) and keeps the map equal to the applied log. |
| `Coref.IndexableIff` | utils.py:65-70 | The mention loop's success condition holds exactly when every mention whose text is not the entity has a first token to index. |
| `Coref.BuildMapper` | utils.py:54-74 | Fails exactly when a kept cluster mentioning the entity has a non-matching mention without tokens; otherwise returns the write log applied in loop order. |
| `Coref.Rebuild` | utils.py:76-81 | The accumulated output is the in-order concatenation of one piece per token. |
| `Coref.ResolveCoref` | utils.py:41-83 | The method's result is the functional specification: an `EmptyMention` error, or the rebuilt text under the replacement map. |
| `CorefProperties.ElideWritesIn` | utils.py:73-74 | The erasing writes are exactly `""` at each of the given tokens' offsets. |
| `CorefProperties.MentionWritesIn` | utils.py:69-74 | A mention's writes are exactly: entity plus whitespace at its first token's offset, and `""` at each later token's offset. |
| `CorefProperties.OneTokenWrites` | utils.py:70-74 | A single-token mention writes one entry only, the entity plus that token's whitespace. |
| `CorefProperties.ClusterWritesIn` | utils.py:65-74 | The mention loop writes exactly the rules of mentions whose text differs from the entity; exact matches contribute nothing. |
| `CorefProperties.AllWritesIn` | utils.py:58-74 | The whole log holds exactly the rules of non-matching mentions in clusters that mention the entity; other clusters contribute nothing. |
| `CorefProperties.ApplyKeys` | utils.py:70-74 | The map's keys are exactly the offsets written. |
| `CorefProperties.ApplyLastWins` | utils.py:70-74 | A write not followed by a later write to the same offset is the value the map keeps. |
| `CorefProperties.ApplyValue` | utils.py:70-74 | Every map value is that of the last write to its offset. |
| `CorefProperties.ApplyConsistent` | utils.py:70-74 | If no two writes give one offset different values, the map holds every write. |
| `CorefProperties.KeyTargeted` | utils.py:58-74 | Only offsets of tokens of non-matching mentions in kept clusters that mention the entity become keys. |
| `CorefProperties.TargetedKey` | utils.py:58-74 | Every such offset does become a key. |
| `CorefProperties.MapperKeys` | utils.py:58-74 | An offset is a key exactly when it starts a token of a non-matching mention in a kept cluster that mentions the entity; no other offset is touched. |
| `CorefProperties.MapperValue` | utils.py:58-74 | Every value in the map is a rule's value: entity plus a first token's whitespace, or `""` for a later token. |
| `CorefProperties.MapperRule` | utils.py:58-74 | When no two rules clash, every rule is in the map: first token maps to entity plus whitespace, later tokens to `""`. |
| `CorefProperties.NoMatchNoWrites` | utils.py:58-62 | If no cluster has a mention spelled exactly like the entity, nothing is written. |
| `CorefProperties.RenderStep` | utils.py:77-81 | Processing one more token appends exactly its piece to the output. |
| `CorefProperties.RenderAppend` | utils.py:77-81 | The output for a concatenated token stream is the concatenation of the outputs. |
| `CorefProperties.RenderUntouched` | utils.py:77-81 | Tokens whose offsets are not keys come out as their own text and whitespace. |
| `CorefProperties.RenderElided` | utils.py:73-81 | Tokens mapped to `""` contribute nothing to the output. |
| `CorefProperties.RenderMention` | utils.py:69-81 | A mention mapped by its rules renders as the entity followed by its first token's whitespace. |
| `CorefProperties.RenderCollapse` | utils.py:69-81 | Around such a mention, the output is the untouched prefix, then that single piece, then the untouched suffix. |
| `CorefProperties.ResolveNoMatch` | utils.py:58-83 | Identity: if no kept cluster mentions the entity, the map is empty and the output is the tokens' own text, so it equals the input text whenever the tokens reconstruct it. |
| `CorefProperties.ResolveCollapse` | utils.py:58-83 | A non-matching mention of a cluster that mentions the entity has tokens, and with no clashing rules it becomes exactly the entity plus its first token's whitespace in the output. |
| `CorefProperties.ResolvePassThrough` | utils.py:77-81 | A token no rule targets appears unchanged, in place, with its own whitespace. |
| `CorefScenarios.ScenarioReplacePronoun` | utils.py:53-83 | "Alice went home. She was tired." with entity "Alice" becomes "Alice went home. Alice was tired.". A group whose key lacks the "coref" prefix is ignored. |
| `CorefScenarios.ScenarioNoMatch` | utils.py:58-83 | With entity "Bob", which no mention spells, the same document comes out unchanged. |
| `CorefScenarios.ScenarioCollapse` | utils.py:65-81 | "The old man left. He slept." with entity "He" becomes "He left. He slept.": the three-token mention collapses into one replacement. |
| `CorefScenarios.ScenarioLaterWriteWins` | utils.py:70-74 | When the "her sister" cluster precedes the "sister" cluster, offset 14 ends up mapped to the later write, "Alice". |
| `CorefScenarios.ScenarioOrderMatters` | utils.py:58-74 | With the clusters swapped, offset 14 ends up mapped to `""`: cluster order decides the map. |

## Left out

- The coreference model (`nlp = spacy.load(...)` at utils.py:8 and `nlp(text)` at utils.py:52): the document's tokens and span groups are inputs. `text` only appears through `Coref.Plain`, the text the tokens reconstruct, in the identity property.
- How spaCy computes `Span.text`, `Token.idx` and `Token.whitespace_`: these are given fields. Nothing ties a mention's text to its tokens, and nothing requires offsets to be unique or mentions contiguous, because the code relies on neither.
- `collate_documents` (utils.py:11-38): TSV/CSV reading and writing and file I/O, with no algorithmic content.
- The unused imports at utils.py:3-6.
- Python's exception object: the `IndexError` is modelled as the single error value `EmptyMention`, with no message.
