# Topic-graph stores and expand endpoint, modelled in Dafny

This project models the parts of the galaxy repository that hold logic rather than rendering:

- **The galaxy-codex client store** (`codex_store.dfy`, module `CodexStore`). It holds the focused node id (`activeNode`) and the topic graph (`graphData = {nodes, links}`). `handleLinkClick` looks a term up among the node names, ignoring case. If a node matches, it only moves the focus there. Otherwise it appends a node with id `parent + "_" + term` (each run of white space in the term becomes one `_`) and a link from the parent, focuses the new node, and fetches its content. `fetchNodeContent` skips a node that already has non-empty content. On success it writes the fetched `content` and `category` into every node with the requested id and sets `summary` to `null`.
- **The gem3 client store** (`gem3_store.dfy`, module `Gem3Store`). `generateSubTopics` builds six children with ids `topic_0` … `topic_5`. `expandNode` appends them, with one link to each, unless the node already has an outgoing link. A link's source may be the id it was created with or the node object that the force-layout library puts in its place (`Endpoint`).
- **The galaxy-codex server** (`expand_server.dfy`, module `ExpandServer`). It keeps a topic → data cache that `loadCache` fills from a file. The `/api/expand` handler does four things in order. It rejects a missing topic with 400. It answers a truthy cache entry as stored. Otherwise it cleans the model's reply (removes every "```json", then every "```", then trims), parses it and stores it. A failure in generation or parsing gives a 500 and leaves the cache alone.
- **Shared string operations** (`text.dfy`, module `Text`). These are JavaScript's `\s` class, ASCII case folding, `replace(/\s+/g, '_')`, `replace(/<literal>/g, '')` and `trim`. `values.dfy` holds `Option` and `Slot`. A `Slot` is a JavaScript property that is `undefined`, `null` or set.

Each store action is a method of a class whose fields are the store's fields. Its postcondition ties the new state, and the request it sends, to a step function on values: `FetchStep`, `LinkClickStep`, `Expand` or `HandleExpand`. The promised properties are lemmas about those functions. The asynchronous request, the language model, `JSON.parse` and the text of the cache file are inputs to these functions.

Node identity is parent-prefixed, and an existing node is found by case-insensitive name, not by id. `LinkClickCanDuplicateId` shows what follows from this. Two terms that differ only in the length of a white-space run get the same id under the same parent. Neither name matches the other, so a second node with an existing id is appended. After that, `fetchNodeContent` finds the older node first.

## Model

| member | source | states |
|---|---|---|
| `CodexStore.Store.constructor` | galaxy-codex/src/store/useStore.js:4-33 | The store starts focused on "Artificial Intelligence" with that one root node, which has content, and no links. |
| `CodexStore.Store.SetActiveNode` | galaxy-codex/src/store/useStore.js:36 | Only `activeNode` changes, to the given id; `graphData` is untouched. |
| `CodexStore.Store.ExpandNode` | galaxy-codex/src/store/useStore.js:38-41 | The empty action changes neither field. |
| `CodexStore.Store.FetchNodeContent` | galaxy-codex/src/store/useStore.js:43-68 | The new graph and the topic requested are those of `FetchStep`; `activeNode` is unchanged. |
| `CodexStore.Store.HandleLinkClick` | galaxy-codex/src/store/useStore.js:70-107 | The new graph, focus and request are those of `LinkClickStep`, including the nested `fetchNodeContent` call. |
| `CodexStore.Find` | galaxy-codex/src/store/useStore.js:45 | Returns the index of the first node that satisfies the test, or none when no node does. |
| `CodexStore.WithContent` | galaxy-codex/src/store/useStore.js:58-62 | The mapped list has the same length, ids and names. Nodes with another id are unchanged. A node with the id has content exactly when the fetched content is a non-empty string. |
| `CodexStore.FetchStep` | galaxy-codex/src/store/useStore.js:43-68 | A fetch keeps the node count and the links, and changes nothing when it sends no request. The topic requested is `topicName` when it is truthy, and otherwise the name of a node of the graph. |
| `CodexStore.NewNodeId` | galaxy-codex/src/store/useStore.js:83-90 | The new id starts with the parent and `_`, and is no longer than the parent, `_` and the term put together. |
| `CodexStore.LinkClickStep` | galaxy-codex/src/store/useStore.js:70-107 | A click either keeps the links or appends exactly the link parent → focused node. A click that sends a request has focused the new id and added one node. |
| `Text.SameIgnoringCase` | galaxy-codex/src/store/useStore.js:74 | Two texts match when they have the same length and agree letter by letter after ASCII lower-casing; every text matches itself. |
| `Text.ReplaceSpaceRuns` | galaxy-codex/src/store/useStore.js:83 | The result is no longer than the term and empty only when the term is. |
| `CodexStore.FetchChangesOnlyMatchingNodes` | galaxy-codex/src/store/useStore.js:49-67 | Node count, order and links are kept, and nodes with another id are unchanged. With no request or a failed request the graph is unchanged. With a successful request every node with the id gets the fetched content and category and a `null` summary. |
| `CodexStore.FetchRequestsIff` | galaxy-codex/src/store/useStore.js:44-50 | A request is sent if and only if the first node with the id lacks non-empty content and there is a topic: a truthy `topicName` or the found node's name. The topic requested is `topicName` when it is truthy, and otherwise the name of the first node with the id. |
| `CodexStore.FetchSkipsNodeWithContent` | galaxy-codex/src/store/useStore.js:45-47 | When the first node with the id has non-empty string content, there is no request and no change. |
| `CodexStore.FetchFailureChangesNothing` | galaxy-codex/src/store/useStore.js:49-67 | A failed request leaves the graph unchanged. |
| `CodexStore.FetchUnknownIdChangesNothing` | galaxy-codex/src/store/useStore.js:45-64 | An id that no node has leaves the graph unchanged, whatever the outcome. |
| `CodexStore.FetchKeepsIds` | galaxy-codex/src/store/useStore.js:55-64 | A fetch never adds, removes or renames a node id. |
| `CodexStore.LinkClickExistingTerm` | galaxy-codex/src/store/useStore.js:74-80 | If a node's name equals the term ignoring case, the click focuses the first such node. Nodes and links stay the same and no request is sent. |
| `CodexStore.LinkClickNewTerm` | galaxy-codex/src/store/useStore.js:82-103 | If no name matches, one node is appended with the new id, the term as name, val 20, colour `#aaddff` and the parent. Exactly the link parent → new id is appended, and the focus is the new id. Earlier nodes with a different id are kept in place. No request is sent when an older node with the new id has content. Otherwise the request is for the term, or for the older node's name when the term is empty. |
| `CodexStore.LinkClickFreshId` | galaxy-codex/src/store/useStore.js:83-106 | When the new id is fresh, the earlier nodes are exactly the prefix and the request is for the term. The new node is last and carries the fetched content when the fetch succeeds. |
| `CodexStore.LinkClickGrowsByAtMostOne` | galaxy-codex/src/store/useStore.js:97-103 | Each click adds at most one node and one link and keeps the earlier links as a prefix. |
| `CodexStore.LinkClickKeepsLinksClosed` | galaxy-codex/src/store/useStore.js:92-101 | If the parent is a node id and every link joined existing nodes before, the same holds after the click. |
| `CodexStore.NewNodeIdSuffix` | galaxy-codex/src/store/useStore.js:83 | The new id is the parent, `_`, then a suffix without white space. The suffix keeps the term's other characters in order and equals the term when the term has no white space. |
| `CodexStore.LinkClickCanDuplicateId` | galaxy-codex/src/store/useStore.js:74-99 | Terms "a b" and "a  b" under parent "p" produce two nodes with id "p_a_b". |
| `Text.ReplaceSpaceRunsIsCollapse` | galaxy-codex/src/store/useStore.js:83 | The run-by-run replacement equals a character-by-character reference. That reference keeps non-spaces, turns a run's first space into `_` and drops the rest of the run. |
| `Text.ReplaceSpaceRunsHasNoSpace` | galaxy-codex/src/store/useStore.js:83 | The replacement's result contains no white-space character. |
| `Text.ReplaceSpaceRunsKeepsNonSpaces` | galaxy-codex/src/store/useStore.js:83 | The term's non-space characters, in order, are a subsequence of the result. |
| `Text.ReplaceSpaceRunsIdentity` | galaxy-codex/src/store/useStore.js:83 | A term without white space is unchanged. |
| `Gem3Store.GenerateSubTopics` | gem3/src/store.js:4-17 | Exactly six children, each with the topic as parent and the i-th topic name. |
| `Gem3Store.SubTopicShape` | gem3/src/store.js:9-16 | Child i has id `topic + "_" + i`, the i-th name, val 10, colour `#00ccff`, and a description that contains its name. |
| `Gem3Store.SubTopicIdsDistinct` | gem3/src/store.js:10 | The six child ids are pairwise distinct and none equals the topic id. |
| `Gem3Store.Store.constructor` | gem3/src/store.js:19-31 | The store starts with the single root node, no links, and no active node. |
| `Gem3Store.Store.ExpandNode` | gem3/src/store.js:33-53 | The new graph is `Expand(old graph, node.id)`, and `activeNode` is unchanged. |
| `Gem3Store.Store.SetActiveNode` | gem3/src/store.js:55 | Only `activeNode` changes, to the given node; the graph is unchanged. |
| `Gem3Store.ExpandedIgnoresLayout` | gem3/src/store.js:37 | Replacing link sources by the node objects they name, as the layout library does, leaves every node's expanded status unchanged. |
| `Gem3Store.IsExpandedAppend` | gem3/src/store.js:37 | A node is expanded in a concatenation of link lists exactly when it is expanded in one of the parts, so appended links never undo an expansion. |
| `Gem3Store.ChildLinks` | gem3/src/store.js:42-45 | One link per child, each from the expanded node to that child's id. |
| `Gem3Store.Expand` | gem3/src/store.js:33-53 | Old nodes and links stay as prefixes. Exactly six nodes and six links are added when the node was not expanded, and none when it was. |
| `Gem3Store.ExpandExpandedIsNoOp` | gem3/src/store.js:36-38 | A node with an outgoing link is not expanded again. This holds whether the link's source is the id or the node object. |
| `Gem3Store.ExpandAppendsChildren` | gem3/src/store.js:40-52 | Otherwise the six generated nodes and six links node → child are appended, and the old nodes and links are kept as prefixes. |
| `Gem3Store.ExpandMarksExpanded` | gem3/src/store.js:37-45 | After an expansion the node has an outgoing link. |
| `Gem3Store.ExpandIdempotent` | gem3/src/store.js:36-52 | Expanding the same node twice gives the graph one expansion gives. |
| `Gem3Store.ExpandKeepsLinksClosed` | gem3/src/store.js:41-51 | Expanding an existing node adds no link with a missing endpoint. |
| `ExpandServer.Server.constructor` | galaxy-codex/server.js:18 | The cache starts empty. |
| `ExpandServer.Server.LoadCache` | galaxy-codex/server.js:20-27 | The cache becomes the parsed file, or empty when reading or parsing fails. |
| `ExpandServer.Server.Expand` | galaxy-codex/server.js:39-84 | The response and the new cache are those of `HandleExpand` on the old cache. |
| `ExpandServer.IsTruthy` | galaxy-codex/server.js:47 | Arrays and objects are truthy, `null` is falsy, and a string is truthy exactly when it is non-empty. |
| `ExpandServer.HandleExpand` | galaxy-codex/server.js:39-84 | The status is 200, 400 or 500. The body holds data exactly on 200, and any other status keeps the cache. The status is 400 exactly when the topic is missing or empty. |
| `ExpandServer.CleanText` | galaxy-codex/server.js:70 | The cleaned text is no longer than the reply and neither starts nor ends with white space. |
| `Text.RemoveAll` | galaxy-codex/server.js:70 | Deleting every occurrence of a literal never lengthens the text. |
| `ExpandServer.MissingTopicRejected` | galaxy-codex/server.js:42-44 | A missing or empty topic gives 400 and the cache is unchanged. The response does not depend on the cache, the model or the parser. |
| `ExpandServer.CacheHitServesStored` | galaxy-codex/server.js:47-50 | A truthy cache entry is answered with status 200 as stored. The answer does not depend on the model or the parser, and the cache is unchanged. |
| `ExpandServer.GeneratedAnswerStored` | galaxy-codex/server.js:72-78 | On a successful parse the data is stored under the topic and returned. All other entries are unchanged and no other key is added. |
| `ExpandServer.FailureKeepsCache` | galaxy-codex/server.js:52-83 | The status is 500 exactly when the topic was given and missed the cache, and then generation or parsing failed. Every non-200 answer leaves the cache unchanged. |
| `ExpandServer.CacheChangesOnlyAtTopic` | galaxy-codex/server.js:39-84 | A request either leaves the cache as it was or sets the entry for its topic to the returned data. |
| `ExpandServer.CleanTextHasNoFence` | galaxy-codex/server.js:70 | The cleaned text contains no "```", and it neither starts nor ends with white space. |
| `ExpandServer.CleanTextUnwrapsFence` | galaxy-codex/server.js:69-70 | "```json", a newline, X, a newline and "```" cleans to `trim(X)` when X has no backtick. |
| `Text.RemoveAllFenceLeavesNoFence` | galaxy-codex/server.js:70 | After every "```" is deleted left to right, no "```" remains, even where deletions join text. |
| `Text.RemoveAllKeepsPlainPrefix` | galaxy-codex/server.js:70 | A prefix that lacks the pattern's first character is copied unchanged. |
| `Text.Trim` | galaxy-codex/server.js:70 | The trimmed text neither starts nor ends with white space. |
| `Text.TrimIsSlice` | galaxy-codex/server.js:70 | `trim` keeps one contiguous piece of the text and removes only white space around it. |
| `Text.TrimKeepsAbsence` | galaxy-codex/server.js:70 | Trimming cannot create an occurrence of a pattern. |
| `Text.TrimIgnoresPadding` | galaxy-codex/server.js:70 | One white-space character added at each end does not change the trimmed text. |

## Left out

- The network request in `fetchNodeContent` (`fetch`, `response.ok`, `response.json`) is an input outcome. The model returns the topic before `encodeURIComponent`. A non-string `content` or `category` in the response body is not modelled.
- Asynchronous interleaving of overlapping `handleLinkClick` and `fetchNodeContent` calls is not modelled; each `set` is one atomic step.
- `ExpandServer.HandleExpand`: overlapping `/api/expand` requests are not modelled. The handler waits for `generateContent` (server.js:65) between the cache check (line 47) and the store (line 75). So two overlapping requests for the same uncached topic both generate, each answers with its own data, and the later write wins. The model handles one request at a time, and there the second request would be answered from the cache when the stored data is truthy.
- `toLowerCase` folds only the ASCII letters A–Z; Unicode case mapping is not modelled.
- `parentNodeId` is always a string; an `undefined` parent, which JavaScript would print as "undefined", is not modelled.
- The language model (the prompt and `generateContent`), `JSON.parse` and the text read from `cache.json` are inputs: `Generation`, a parser function and the file's text.
- `saveCache` (server.js:29-31, 76), which writes the cache back to `cache.json`, is not modelled; the model's cache lives only in the `Server` object.
- `ExpandServer.Server.Expand`: a failed `saveCache` is not modelled. At that point line 75 has already updated the cache, and the answer would be 500.
- `ExpandServer.Server.LoadCache`: the parser takes the file to a topic map, so a cache file whose JSON is not an object is not modelled. The call at start-up is not awaited, and requests that arrive before it finishes are not modelled.
- The cache is a map, so lookups of names inherited by JavaScript objects (such as `constructor`) are not modelled, and neither are non-string `topic` values (arrays or objects built by the query parser).
- The response serialisation of Express, console logging, the 3D scenes, the JSX components, the Mermaid wrapper and the Vite and PM2 configuration are not part of this model.
