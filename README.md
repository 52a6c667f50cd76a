# DashSearch record mapping, in Dafny

This project models the search layer of DashVector.net: `DashSearchClient`
(`src/DashSearch/DashSearchClient.cs`). The search layer stores a logical record
(an id, a text and the caller's fields) as one vector-store document and turns
query hits back into records. The text is stored under the reserved field
`"__content__"`. Every remote party is an input of the model:

- the embedding service is a function from a text to its reply, already parsed;
- the vector store's query endpoint is a function from a collection name and a
  request to its reply;
- the describe endpoint is represented by its reply.

The upsert, the collection creation request and the partition creation
request are returned as values. The query request is passed to the query
endpoint's function.

Files:

- `outcomes.dfy` (module `Outcomes`): `Option`, `Result`, and the .NET
  exceptions the client raises or catches. Also `SelectAll`, which models LINQ
  `Select(...).ToList()` with an element function that can throw.
- `dictionaries.dfy` (module `Dictionaries`): the .NET `Dictionary` behaviour
  the client depends on. A dictionary is its list of entries in enumeration
  order, with distinct keys. `ToMap` gives the map it denotes. The module models
  `Add` (throws on a present key), `ToDictionary` (throws on a repeated key),
  `Where(key != k)`, the indexer (throws on a missing key), and the
  `SortedDictionary<int, V>` copy constructor.
- `dash_search.dfy` (module `DashSearch`): the client itself.
  - Writing: `StoredFields`, `AddRecord`.
  - Reading: `ReadRecord`, `ReadResults`, `SearchResults`.
  - Search: the tag-filter string (`TagFilter`), the query request, `Search`.
  - Sparse-embedding normalisation: `GenerateEmbedding`.
  - Collections: readiness, and the fixed creation parameters.

Observations the proofs bring out:

- The embedding service is called before the reserved-key check. A record that
  uses `"__content__"` as a field name still costs an embedding call, and then
  fails with `ArgumentException`.
- Tag values are not escaped (`TagFilterAmbiguous`). A one-tag filter whose
  value contains ` and b:2` gives the same filter string as two tags.

## Model

| member | source | states |
|---|---|---|
| `Outcomes.SelectAll` | src/DashSearch/DashSearchClient.cs:143-149 | `Select(...).ToList()` keeps the count and order of its input, with each element's result at its index. When it fails, the error comes from the first element that throws, and every element before it succeeded. |
| `Dictionaries.Get` | src/DashSearch/DashSearchClient.cs:147 | The indexer succeeds exactly when the key is present, and returns the value the dictionary maps it to. Otherwise it throws `KeyNotFoundException`. |
| `Dictionaries.Add` | src/DashSearch/DashSearchClient.cs:101 | `Dictionary.Add` fails with `ArgumentException` exactly when the key is already present. Otherwise the new entry is enumerated last, and the map is the old map plus that one key. |
| `Dictionaries.FromEntries` | src/DashSearch/DashSearchClient.cs:177 | `ToDictionary` succeeds exactly when no key repeats, and then keeps every pair in order. A repeated key throws `ArgumentException`. |
| `Dictionaries.RemoveKey` | src/DashSearch/DashSearchClient.cs:148 | `Where(x => x.Key != k)` keeps every other key with its value, drops `k`, and keeps keys distinct. It changes nothing when `k` is absent. |
| `Dictionaries.MapValuesMeaning` | src/DashSearch/DashSearchClient.cs:99 | `ToDictionary(x => x.Key, x => f(x.Value))` keeps the same keys, so keys stay distinct, and maps each key to `f` of its old value. |
| `Dictionaries.SortedByKeyCorrect` | src/DashSearch/DashSearchClient.cs:179 | Copying a dictionary into a `SortedDictionary` gives exactly its entries, same multiset and same keys, by strictly ascending key. |
| `Dictionaries.AscendingUnique` | src/DashSearch/DashSearchClient.cs:179 | Two key-ascending entry lists with the same entries are equal, so a `SortedDictionary`'s order is fixed by its contents. |
| `DashSearch.GetString` | src/DashSearch/DashSearchClient.cs:147 | `GetValue<string>()` succeeds exactly on a string field, and wrapping the result gives back the field. Any other value is an invalid cast. |
| `DashSearch.GenerateEmbedding` | src/DashSearch/DashSearchClient.cs:157-180 | A failed embedding call propagates. Otherwise the dense vector is passed through. The sparse vector is strictly ascending by index and holds exactly the service's (index, value) pairs. It fails with `ArgumentException` exactly when an index repeats. |
| `DashSearch.SparseOrderIrrelevant` | src/DashSearch/DashSearchClient.cs:177-179 | Two replies with the same sparse pairs, in any order, give the same sparse vector. |
| `DashSearch.StoredFields` | src/DashSearch/DashSearchClient.cs:99-101 | Fails with `ArgumentException` exactly when the caller already uses `"__content__"`. Otherwise the stored keys are the caller's keys plus `"__content__"`. Every caller key keeps its (wrapped) value, in the caller's order, and the text comes last under `"__content__"`. |
| `DashSearch.AddRecord` | src/DashSearch/DashSearchClient.cs:95-116 | An embedding failure comes first and propagates. After that, the call fails exactly on a reserved-key collision, and then no upsert is produced. On success it produces one upsert: to the given collection and partition, with exactly one document. That document has the record's id, the dense and sparse embedding, the stored fields, and no score. |
| `DashSearch.ReadRecord` | src/DashSearch/DashSearchClient.cs:143-149 | A hit without `"__content__"` throws `KeyNotFoundException`, and a non-string content throws `InvalidCastException`. Otherwise the record's id and score are the hit's and its text is the content field. Its fields are every other key with the unwrapped value, never `"__content__"`. |
| `DashSearch.ReadResults` | src/DashSearch/DashSearchClient.cs:143-149 | The records are one per hit, in hit order. The list fails exactly when some hit cannot be read, and then with the first such hit's exception. |
| `DashSearch.SearchResults` | src/DashSearch/DashSearchClient.cs:134-149 | A failed query propagates. A reply without an output list makes `Select` throw `ArgumentNullException`. Otherwise the result is the list of records read from the hits. |
| `DashSearch.RecordRoundTrip` | src/DashSearch/DashSearchClient.cs:99-148 | Reading a document whose fields were built from a record gives back that record's id, text and fields (same entries, same order), with the document's score. |
| `DashSearch.SearchRoundTrip` | src/DashSearch/DashSearchClient.cs:143-149 | When every hit was written for the matching record, the hits read back as exactly those records, in order, each with its hit's score. |
| `DashSearch.SearchReturnsStoredRecords` | src/DashSearch/DashSearchClient.cs:128-149 | When the store answers with hits all written by `AddRecord`, the search succeeds. It returns exactly those records, in hit order, each with its hit's score. |
| `DashSearch.TagFilter` | src/DashSearch/DashSearchClient.cs:132 | The filter is null exactly when the tag filters are null. An empty tag dictionary gives the empty string, not null. |
| `DashSearch.JoinAppend` | src/DashSearch/DashSearchClient.cs:132 | `string.Join` of one more part is the previous join, then the separator, then the new part. |
| `DashSearch.JoinOffsets` | src/DashSearch/DashSearchClient.cs:132 | The joined string's length is the sum of the part lengths plus one separator between each pair of neighbours. Each part starts one part and one separator after the previous one. |
| `DashSearch.JoinPartAt` | src/DashSearch/DashSearchClient.cs:132 | Each part occurs in the joined string at its offset. |
| `DashSearch.JoinSeparatorAt` | src/DashSearch/DashSearchClient.cs:132 | The separator follows every part except the last. |
| `DashSearch.TagFilterAppend` | src/DashSearch/DashSearchClient.cs:132 | Adding one more tag to a non-empty dictionary appends `and` and ` key:value ` to the filter. |
| `DashSearch.TagFilterLayout` | src/DashSearch/DashSearchClient.cs:132 | Each tag appears in the filter as ` key:value `, in enumeration order, followed by `and` unless it is the last. The filter's length accounts for nothing else. |
| `DashSearch.TagFilterAmbiguous` | src/DashSearch/DashSearchClient.cs:132 | The one-tag filter `{a: "1 and b:2"}` and the two-tag filter `{a: "1", b: "2"}` give the same string. |
| `DashSearch.QueryFor` | src/DashSearch/DashSearchClient.cs:132-141 | The query carries the dense and sparse embedding of the query text, and the caller's result count and partition unchanged. Its filter is the tag-filter string whose layout `TagFilterLayout` states, and it is null exactly when there are no tag filters. |
| `DashSearch.Search` | src/DashSearch/DashSearchClient.cs:128-150 | An embedding failure propagates, and the store is not queried. Otherwise the result is exactly the store's reply to the query `QueryFor` builds, read by `SearchResults`. A successful search means the store answered with an output list, and the search returns one record per hit. |
| `DashSearch.SearchWithDefaults` | src/DashSearch/DashSearchClient.cs:128 | A search without the optional arguments asks the store for 5 hits, with no partition and no filter. |
| `DashSearch.CollectionIsReady` | src/DashSearch/DashSearchClient.cs:62-73 | Ready exactly when the describe call returns, its output is present and its status is serving. A null output, any other status, or any exception reads as not ready. |
| `DashSearch.CreateCollection` | src/DashSearch/DashSearchClient.cs:45-55 | The request always has dimension 1024, the dot-product metric and float vectors. Only the name and the field schema come from the caller, unchanged. |
| `DashSearch.CreatePartition` | src/DashSearch/DashSearchClient.cs:80-86 | The partition request names the caller's partition and targets the caller's collection. |

## Left out

- HTTP transport, JSON request and response shapes, authentication headers,
  the embedding URL, model name and output type: these are I/O. The embedding
  reply enters the model already parsed, as the dense vector and the sparse
  (index, value) pairs.
- Number parsing: `float.Parse` and `int.Parse` of the embedding reply. A
  malformed number or missing JSON node is represented only by a failed reply.
  Floats are opaque 32-bit patterns; the client never computes with them.
- The vector store client (`UpsertDocAsync`, `QueryDocAsync`,
  `DescribeCollectionAsync`, `CreateCollectionAsync`, `CreatePartitionAsync`)
  is not part of this model. Server-side upsert replacement, ranking, filter
  evaluation and the collection lifecycle are therefore not modelled. The
  upsert's reply is ignored by the client and is not modelled either.
- `FieldValue`, `Doc` and `CollectionStatus` are defined by the DashVector
  library, and their definitions are not part of this model. The model assumes
  their shape. `FieldValue` is a box around the raw value, and
  `GetValue<string>()` succeeds only on a string. `Doc.Score` is nullable. The
  statuses are initialized, serving, dropping and failed.
- Null references from callers (a null record, null fields, null content, null
  id) and null field values are not modelled: records, ids, texts and values
  are always present.
- Hits whose `Fields` is null are not modelled: `Doc.fields` is always a
  dictionary. In the client, such a hit throws `NullReferenceException` at the
  `Fields[...]` lookup, and a null reply (as opposed to a reply with a null
  output list) would too.
- `AddRecord`, `CreateCollection` and `CreatePartition` return the request
  they send. So they do not model a failing `UpsertDocAsync`,
  `CreateCollectionAsync` or `CreatePartitionAsync` call whose exception
  propagates out of the client method.
- Dictionary enumeration order is modelled as insertion order. That is the
  behaviour of .NET's `Dictionary` when no entry has been removed, and the
  client never removes one.
- The constructor and the two fields it sets (the vector store client and the
  HTTP client with its bearer token) are configuration only.
- async/await and cancellation tokens are passed through and carry no logic.
- Dafny has no optional parameters. Of the ways to omit them, the model has
  only `SearchWithDefaults`, which omits all three. Callers that omit only some
  pass `DefaultTopK`, `None` or `None` to `Search` themselves.
