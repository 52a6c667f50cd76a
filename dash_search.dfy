/** The DashSearch client: it stores a logical record (an id, a text and the
    caller's fields) as one vector-store document whose fields carry the text
    under a reserved key, and turns query hits back into records.

    The remote parties are inputs: the embedding service is a function from a
    text to its (already parsed) reply, the vector store's query endpoint a
    function from a collection name and a request to its reply, and the describe
    endpoint its reply. Requests that the client sends are returned as values. */
module DashSearch {
  import opened Outcomes
  import opened Dictionaries

  /** The field under which a record's text is stored. */
  const ContentField: string := "__content__"

  /** What every collection created by this client declares. */
  const Dimension: int := 1024

  /** The number of hits a search asks for when the caller names none. */
  const DefaultTopK: int := 5

  /** A 32-bit float, kept as its bit pattern: the client never computes with it. */
  datatype Float32 = Float32(bits: bv32)

  /** A caller-supplied field value (a boxed .NET object). */
  datatype Value = Str(s: string) | Int(i: int) | Real(f: Float32) | Bool(b: bool)

  /** The vector store's wrapper around a field value. */
  datatype FieldValue = FieldValue(rawValue: Value)

  /** `new FieldValue(x)`. */
  function Box(v: Value): FieldValue {
    FieldValue(v)
  }

  /** `FieldValue.RawValue`. */
  function Unbox(fv: FieldValue): Value {
    fv.rawValue
  }

  /** `FieldValue.GetValue<string>()`: the text a field holds, or an invalid cast. */
  function GetString(fv: FieldValue): (r: Result<string>)
    ensures r.Success? <==> fv.rawValue.Str?
    ensures r.Success? ==> Box(Str(r.value)) == fv
    ensures r.Failure? ==> r.error == InvalidCastException
  {
    match fv.rawValue
    case Str(s) => Success(s)
    case _ => Failure(InvalidCastException)
  }

  /** `DashSearchRecord`: the score is present only on search results. */
  datatype SearchRecord = SearchRecord(
    score: Option<Float32>,
    recordId: string,
    content: string,
    fields: Dictionary<string, Value>)

  /** A sparse vector: (index, weight) pairs by strictly ascending index. */
  type SparseVector = s: seq<(int, Float32)> | StrictlyAscending(s) witness []

  /** A vector-store document, as written by an upsert and as returned by a query. */
  datatype Doc = Doc(
    id: string,
    vector: seq<Float32>,
    sparseVector: seq<(int, Float32)>,
    fields: Dictionary<string, FieldValue>,
    score: Option<Float32>)

  datatype UpsertDocRequest = UpsertDocRequest(docs: seq<Doc>, partition: Option<string>)

  /** The upsert the client sends: the request and the collection it targets. */
  datatype UpsertCall = UpsertCall(collectionName: string, request: UpsertDocRequest)

  datatype QueryDocRequest = QueryDocRequest(
    vector: seq<Float32>,
    sparseVector: seq<(int, Float32)>,
    topK: int,
    partition: Option<string>,
    filter: Option<string>)

  datatype QueryDocResponse = QueryDocResponse(output: Option<seq<Doc>>)

  // ---------------------------------------------------------------------------
  // Embedding generation

  /** The first entry of the embedding service's `output.embeddings`, after its
      numbers have been parsed: the dense vector and the sparse (index, value)
      pairs in the order the service listed them. */
  datatype EmbeddingOutput = EmbeddingOutput(embedding: seq<Float32>, sparseEmbedding: seq<(int, Float32)>)

  datatype Embedding = Embedding(dense: seq<Float32>, sparse: SparseVector)

  /** The dense vector as given, and the sparse pairs collected into a dictionary
      (a repeated index throws) and re-sorted by index. A failed call propagates. */
  function GenerateEmbedding(reply: Result<EmbeddingOutput>): (r: Result<Embedding>)
    ensures reply.Failure? ==> r == Failure(reply.error)
    ensures reply.Success? ==> (r.Success? <==> DistinctKeys(reply.value.sparseEmbedding))
    ensures reply.Success? && r.Failure? ==> r.error == ArgumentException
    ensures r.Success? ==> r.value.dense == reply.value.embedding
    ensures r.Success? ==> multiset(r.value.sparse) == multiset(reply.value.sparseEmbedding)
  {
    match reply
    case Failure(e) => Failure(e)
    case Success(out) =>
      match FromEntries(out.sparseEmbedding)
      case Failure(e) => Failure(e)
      case Success(d) =>
        SortedByKeyCorrect(d);
        Success(Embedding(out.embedding, SortedByKey(d)))
  }

  /** The sparse vector depends only on which pairs the service sent, not on the
      order it listed them in. */
  lemma SparseOrderIrrelevant(a: EmbeddingOutput, b: EmbeddingOutput)
    requires GenerateEmbedding(Success(a)).Success? && GenerateEmbedding(Success(b)).Success?
    requires multiset(a.sparseEmbedding) == multiset(b.sparseEmbedding)
    ensures GenerateEmbedding(Success(a)).value.sparse == GenerateEmbedding(Success(b)).value.sparse
  {
    AscendingUnique(GenerateEmbedding(Success(a)).value.sparse, GenerateEmbedding(Success(b)).value.sparse);
  }

  // ---------------------------------------------------------------------------
  // Writing a record

  /** The fields of the stored document: the caller's fields, each wrapped, then
      the text under the reserved key; `Dictionary.Add` throws if the caller
      already used that key. */
  function StoredFields(fields: Dictionary<string, Value>, content: string): (r: Result<Dictionary<string, FieldValue>>)
    ensures r.Failure? <==> ContentField in Keys(fields)
    ensures r.Failure? ==> r.error == ArgumentException
    ensures r.Success? ==> Keys(r.value) == Keys(fields) + {ContentField}
    ensures r.Success? ==> ToMap(r.value)[ContentField] == Box(Str(content))
    ensures r.Success? ==> forall k :: k in ToMap(fields) ==> ToMap(r.value)[k] == Box(ToMap(fields)[k])
    ensures r.Success? ==> |r.value| == |fields| + 1
    ensures r.Success? ==> forall i :: 0 <= i < |fields| ==> r.value[i] == (fields[i].0, Box(fields[i].1))
  {
    MapValuesMeaning(fields, Box);
    Add(MapValues(fields, Box), ContentField, Box(Str(content)))
  }

  /** `AddRecordAsync`: embeds the text, builds the document and returns the
      single-document upsert to send, or the exception thrown before any upsert
      is sent. */
  method AddRecord(
    collectionName: string,
    record: SearchRecord,
    partition: Option<string>,
    embed: string -> Result<EmbeddingOutput>)
    returns (r: Result<UpsertCall>)
    ensures GenerateEmbedding(embed(record.content)).Failure? ==>
      r == Failure(GenerateEmbedding(embed(record.content)).error)
    ensures GenerateEmbedding(embed(record.content)).Success? ==>
      (r.Failure? <==> ContentField in Keys(record.fields))
    ensures GenerateEmbedding(embed(record.content)).Success? && r.Failure? ==>
      r.error == ArgumentException
    ensures r.Success? ==>
      var e := GenerateEmbedding(embed(record.content)).value;
      && r.value.collectionName == collectionName
      && r.value.request.partition == partition
      && |r.value.request.docs| == 1
      && r.value.request.docs[0].id == record.recordId
      && r.value.request.docs[0].vector == e.dense
      && r.value.request.docs[0].sparseVector == e.sparse
      && StoredFields(record.fields, record.content) == Success(r.value.request.docs[0].fields)
      && r.value.request.docs[0].score.None?
  {
    var embedding :- GenerateEmbedding(embed(record.content));
    MapValuesMeaning(record.fields, Box);
    var fields: Dictionary<string, FieldValue> := MapValues(record.fields, Box);
    fields :- Add(fields, ContentField, Box(Str(record.content)));
    var doc := Doc(record.recordId, embedding.dense, embedding.sparse, fields, None);
    r := Success(UpsertCall(collectionName, UpsertDocRequest([doc], partition)));
  }

  // ---------------------------------------------------------------------------
  // Reading query hits back

  /** One hit as a record: the text comes from the reserved field (missing: key
      not found; not a string: invalid cast), every other field is unwrapped,
      and the id and score are copied. */
  function ReadRecord(doc: Doc): (r: Result<SearchRecord>)
    ensures ContentField !in Keys(doc.fields) ==> r == Failure(KeyNotFoundException)
    ensures ContentField in Keys(doc.fields) ==>
      (r.Success? <==> ToMap(doc.fields)[ContentField].rawValue.Str?)
    ensures r.Failure? && ContentField in Keys(doc.fields) ==> r.error == InvalidCastException
    ensures r.Success? ==>
      && r.value.recordId == doc.id
      && r.value.score == doc.score
      && ToMap(doc.fields)[ContentField] == Box(Str(r.value.content))
      && Keys(r.value.fields) == Keys(doc.fields) - {ContentField}
      && forall k :: k in ToMap(r.value.fields) ==> Box(ToMap(r.value.fields)[k]) == ToMap(doc.fields)[k]
  {
    match Get(doc.fields, ContentField)
    case Failure(e) => Failure(e)
    case Success(fv) =>
      match GetString(fv)
      case Failure(e) => Failure(e)
      case Success(content) =>
        var rest := RemoveKey(doc.fields, ContentField);
        MapValuesMeaning(rest, Unbox);
        Success(SearchRecord(doc.score, doc.id, content, MapValues(rest, Unbox)))
  }

  /** The hits as records, in the same order; the first hit that cannot be read
      makes the whole list fail with its exception. */
  function ReadResults(docs: seq<Doc>): (r: Result<seq<SearchRecord>>)
    ensures r.Success? <==> forall i :: 0 <= i < |docs| ==> ReadRecord(docs[i]).Success?
    ensures r.Success? ==>
      |r.value| == |docs| && forall i :: 0 <= i < |docs| ==> ReadRecord(docs[i]) == Success(r.value[i])
    ensures r.Failure? ==>
      exists i :: 0 <= i < |docs| && ReadRecord(docs[i]) == Failure(r.error)
        && forall j :: 0 <= j < i ==> ReadRecord(docs[j]).Success?
  {
    SelectAll(docs, ReadRecord)
  }

  /** The query reply as records: a failed query propagates, and `Select` on a
      missing `output` list throws `ArgumentNullException`. */
  function SearchResults(reply: Result<QueryDocResponse>): (r: Result<seq<SearchRecord>>)
    ensures reply.Failure? ==> r == Failure(reply.error)
    ensures reply.Success? && reply.value.output.None? ==> r == Failure(ArgumentNullException)
    ensures reply.Success? && reply.value.output.Some? ==> r == ReadResults(reply.value.output.value)
  {
    match reply
    case Failure(e) => Failure(e)
    case Success(response) =>
      match response.output
      case None => Failure(ArgumentNullException)
      case Some(docs) => ReadResults(docs)
  }

  /** The document was written for this record: same id, and its fields are the
      record's stored fields. */
  ghost predicate WrittenFrom(doc: Doc, record: SearchRecord) {
    doc.id == record.recordId && StoredFields(record.fields, record.content) == Success(doc.fields)
  }

  /** Reading a document written for a record gives the record back, with the
      document's score. */
  lemma {:induction false} RecordRoundTrip(doc: Doc, record: SearchRecord)
    requires WrittenFrom(doc, record)
    ensures ReadRecord(doc) == Success(record.(score := doc.score))
  {
    var wrapped := MapValues(record.fields, Box);
    MapValuesMeaning(record.fields, Box);
    assert doc.fields == wrapped + [(ContentField, Box(Str(record.content)))];
    assert doc.fields[..|wrapped|] == wrapped;
    assert RemoveKey(doc.fields, ContentField) == wrapped;
    MapValuesInverse(record.fields, Box, Unbox);
  }

  /** Searching a store whose hits were all written by this client returns the
      original records, in hit order, each with its hit's score. */
  lemma SearchRoundTrip(docs: seq<Doc>, records: seq<SearchRecord>)
    requires |docs| == |records|
    requires forall i :: 0 <= i < |docs| ==> WrittenFrom(docs[i], records[i])
    ensures ReadResults(docs) == Success(seq(|docs|, i requires 0 <= i < |docs| => records[i].(score := docs[i].score)))
  {
    var expected := seq(|docs|, i requires 0 <= i < |docs| => records[i].(score := docs[i].score));
    forall i | 0 <= i < |docs| ensures ReadRecord(docs[i]) == Success(expected[i]) {
      RecordRoundTrip(docs[i], records[i]);
    }
    var r := ReadResults(docs);
    assert r.Success?;
    assert r.value == expected;
  }

  // ---------------------------------------------------------------------------
  // Searching

  /** One tag filter, rendered as ` key:value `. */
  function Fragment(key: string, value: string): string {
    " " + key + ":" + value + " "
  }

  function Fragments(filters: seq<(string, string)>): (r: seq<string>)
    ensures |r| == |filters|
    ensures forall i :: 0 <= i < |filters| ==> r[i] == Fragment(filters[i].0, filters[i].1)
  {
    seq(|filters|, i requires 0 <= i < |filters| => Fragment(filters[i].0, filters[i].1))
  }

  /** `string.Join(separator, parts)`. */
  function Join(separator: string, parts: seq<string>): string {
    if |parts| == 0 then ""
    else if |parts| == 1 then parts[0]
    else parts[0] + separator + Join(separator, parts[1..])
  }

  /** The filter expression sent with a search: null without tag filters,
      otherwise the fragments joined by `and` (the empty string for no tags). */
  function TagFilter(tagFilters: Option<Dictionary<string, string>>): (r: Option<string>)
    ensures r.None? <==> tagFilters.None?
    ensures tagFilters == Some([]) ==> r == Some("")
  {
    match tagFilters
    case None => None
    case Some(d) => Some(Join("and", Fragments(d)))
  }

  /** Joining one more part adds the separator and that part at the end. */
  lemma {:induction false} JoinAppend(separator: string, parts: seq<string>, p: string)
    requires |parts| > 0
    ensures Join(separator, parts + [p]) == Join(separator, parts) + separator + p
  {
    if |parts| > 1 {
      assert (parts + [p])[1..] == parts[1..] + [p];
      JoinAppend(separator, parts[1..], p);
    }
  }

  /** Where part `i` starts in the joined string. */
  function JoinOffset(separator: string, parts: seq<string>, i: nat): nat
    requires i <= |parts|
  {
    if i == 0 then 0 else |parts[0]| + |separator| + JoinOffset(separator, parts[1..], i - 1)
  }

  /** The joined string is as long as its parts and separators, part by part. */
  lemma {:induction false} JoinOffsets(separator: string, parts: seq<string>, i: nat)
    requires i < |parts|
    ensures |Join(separator, parts)| == JoinOffset(separator, parts, |parts| - 1) + |parts[|parts| - 1]|
    ensures i + 1 < |parts| ==>
      JoinOffset(separator, parts, i + 1) == JoinOffset(separator, parts, i) + |parts[i]| + |separator|
    ensures JoinOffset(separator, parts, i) + |parts[i]| + (if i + 1 < |parts| then |separator| else 0)
      <= |Join(separator, parts)|
  {
    if |parts| > 1 {
      assert Join(separator, parts) == parts[0] + separator + Join(separator, parts[1..]);
      JoinOffsets(separator, parts[1..], if i == 0 then 0 else i - 1);
    }
  }

  /** A slice that lies in the second half of a concatenation. */
  lemma SliceRight(a: string, b: string, x: nat, y: nat)
    requires |a| <= x <= y <= |a| + |b|
    ensures (a + b)[x..y] == b[x - |a|..y - |a|]
  {
  }

  /** The joined string holds each part at its offset. */
  lemma {:induction false} JoinPartAt(separator: string, parts: seq<string>, i: nat)
    requires i < |parts|
    ensures JoinOffset(separator, parts, i) + |parts[i]| <= |Join(separator, parts)|
    ensures Join(separator, parts)[JoinOffset(separator, parts, i)..JoinOffset(separator, parts, i) + |parts[i]|] == parts[i]
  {
    JoinOffsets(separator, parts, i);
    if |parts| > 1 {
      var rest := Join(separator, parts[1..]);
      var head := parts[0] + separator;
      assert Join(separator, parts) == head + rest;
      if i == 0 {
        assert (head + rest)[..|parts[0]|] == parts[0];
      } else {
        var o := JoinOffset(separator, parts[1..], i - 1);
        JoinPartAt(separator, parts[1..], i - 1);
        assert parts[1..][i - 1] == parts[i];
        SliceRight(head, rest, |head| + o, |head| + o + |parts[i]|);
      }
    }
  }

  /** The joined string holds the separator right after every part but the last. */
  lemma {:induction false} JoinSeparatorAt(separator: string, parts: seq<string>, i: nat)
    requires i + 1 < |parts|
    ensures JoinOffset(separator, parts, i) + |parts[i]| + |separator| <= |Join(separator, parts)|
    ensures var o := JoinOffset(separator, parts, i) + |parts[i]|;
      Join(separator, parts)[o..o + |separator|] == separator
  {
    JoinOffsets(separator, parts, i);
    var rest := Join(separator, parts[1..]);
    var head := parts[0] + separator;
    assert Join(separator, parts) == head + rest;
    if i == 0 {
      assert (head + rest)[|parts[0]|..|head|] == separator;
    } else {
      JoinSeparatorAt(separator, parts[1..], i - 1);
      assert parts[1..][i - 1] == parts[i];
      var o := JoinOffset(separator, parts[1..], i - 1) + |parts[i]|;
      SliceRight(head, rest, |head| + o, |head| + o + |separator|);
    }
  }

  /** A further tag appends `and` and its fragment to the filter. */
  lemma TagFilterAppend(d: Dictionary<string, string>, key: string, value: string)
    requires |d| > 0 && key !in Keys(d)
    ensures Add(d, key, value).Success?
    ensures TagFilter(Some(Add(d, key, value).value)) == Some(TagFilter(Some(d)).value + "and" + Fragment(key, value))
  {
    var e := Add(d, key, value).value;
    assert e == d + [(key, value)];
    var fe, fd := Fragments(e), Fragments(d) + [Fragment(key, value)];
    assert |fe| == |fd|;
    forall i | 0 <= i < |fe| ensures fe[i] == fd[i] {
      if i < |d| {
        assert e[i] == d[i];
      }
    }
    assert fe == fd;
    JoinAppend("and", Fragments(d), Fragment(key, value));
  }

  /** Each tag appears in the filter as ` key:value `, in the dictionary's order,
      followed by `and` unless it is the last, and nothing else is in the string. */
  lemma TagFilterLayout(d: Dictionary<string, string>, i: nat)
    requires i < |d|
    ensures var f := TagFilter(Some(d)).value;
      var o := JoinOffset("and", Fragments(d), i);
      var frag := " " + d[i].0 + ":" + d[i].1 + " ";
      && |f| == JoinOffset("and", Fragments(d), |d| - 1) + |Fragment(d[|d| - 1].0, d[|d| - 1].1)|
      && (i + 1 < |d| ==> JoinOffset("and", Fragments(d), i + 1) == o + |frag| + 3)
      && o + |frag| + (if i + 1 < |d| then 3 else 0) <= |f|
      && f[o..o + |frag|] == frag
      && (i + 1 < |d| ==> f[o + |frag|..o + |frag| + 3] == "and")
  {
    JoinOffsets("and", Fragments(d), i);
    JoinPartAt("and", Fragments(d), i);
    if i + 1 < |d| {
      JoinSeparatorAt("and", Fragments(d), i);
    }
  }

  /** Tag values are not escaped, so the filter does not determine the tags: one
      tag whose value contains ` and b:` reads the same as two tags. */
  lemma TagFilterAmbiguous()
    ensures TagFilter(Some([("a", "1 and b:2")])) == TagFilter(Some([("a", "1"), ("b", "2")]))
  {
    var two := Fragments([("a", "1"), ("b", "2")]);
    var one := Fragments([("a", "1 and b:2")]);
    assert two[0] == " a:1 " && two[1] == " b:2 " && one[0] == " a:1 and b:2 ";
    assert Join("and", two) == two[0] + "and" + Join("and", two[1..]);
    assert two[0] + "and" + two[1] == " a:1 and b:2 ";
  }

  /** The query a search sends: both embeddings, the caller's result count and
      partition, and the filter built from the tags. */
  function QueryFor(
    embedding: Embedding,
    topK: int,
    partition: Option<string>,
    tagFilters: Option<Dictionary<string, string>>): (q: QueryDocRequest)
    ensures q.vector == embedding.dense && q.sparseVector == embedding.sparse
    ensures q.topK == topK && q.partition == partition
    ensures q.filter.None? <==> tagFilters.None?
    ensures q.filter == TagFilter(tagFilters)
  {
    QueryDocRequest(embedding.dense, embedding.sparse, topK, partition, TagFilter(tagFilters))
  }

  /** `SearchAsync`: embed the query text, query the store, read the hits. */
  function Search(
    collectionName: string,
    query: string,
    topK: int,
    partition: Option<string>,
    tagFilters: Option<Dictionary<string, string>>,
    embed: string -> Result<EmbeddingOutput>,
    store: (string, QueryDocRequest) -> Result<QueryDocResponse>): (r: Result<seq<SearchRecord>>)
    ensures GenerateEmbedding(embed(query)).Failure? ==> r == Failure(GenerateEmbedding(embed(query)).error)
    ensures GenerateEmbedding(embed(query)).Success? ==>
      var q := QueryFor(GenerateEmbedding(embed(query)).value, topK, partition, tagFilters);
      && r == SearchResults(store(collectionName, q))
      && (r.Success? ==>
           store(collectionName, q).Success? && store(collectionName, q).value.output.Some?
           && |r.value| == |store(collectionName, q).value.output.value|)
  {
    match GenerateEmbedding(embed(query))
    case Failure(e) => Failure(e)
    case Success(embedding) =>
      SearchResults(store(collectionName, QueryFor(embedding, topK, partition, tagFilters)))
  }

  /** `SearchAsync` as called without the optional arguments: `DefaultTopK`
      hits, no partition and no filter. */
  function SearchWithDefaults(
    collectionName: string,
    query: string,
    embed: string -> Result<EmbeddingOutput>,
    store: (string, QueryDocRequest) -> Result<QueryDocResponse>): (r: Result<seq<SearchRecord>>)
    ensures GenerateEmbedding(embed(query)).Failure? ==> r == Failure(GenerateEmbedding(embed(query)).error)
    ensures GenerateEmbedding(embed(query)).Success? ==>
      var e := GenerateEmbedding(embed(query)).value;
      r == SearchResults(store(collectionName, QueryDocRequest(e.dense, e.sparse, 5, None, None)))
  {
    Search(collectionName, query, DefaultTopK, None, None, embed, store)
  }

  /** End to end: when every hit the store returns was written by `AddRecord`
      for the matching record, a search returns those records in hit order. */
  lemma SearchReturnsStoredRecords(
    collectionName: string,
    query: string,
    topK: int,
    partition: Option<string>,
    tagFilters: Option<Dictionary<string, string>>,
    embed: string -> Result<EmbeddingOutput>,
    store: (string, QueryDocRequest) -> Result<QueryDocResponse>,
    records: seq<SearchRecord>)
    requires GenerateEmbedding(embed(query)).Success?
    requires var reply := store(collectionName, QueryFor(GenerateEmbedding(embed(query)).value, topK, partition, tagFilters));
      && reply.Success? && reply.value.output.Some?
      && |reply.value.output.value| == |records|
      && forall i :: 0 <= i < |records| ==> WrittenFrom(reply.value.output.value[i], records[i])
    ensures var docs := store(collectionName, QueryFor(GenerateEmbedding(embed(query)).value, topK, partition, tagFilters)).value.output.value;
      Search(collectionName, query, topK, partition, tagFilters, embed, store)
        == Success(seq(|records|, i requires 0 <= i < |records| => records[i].(score := docs[i].score)))
  {
    var docs := store(collectionName, QueryFor(GenerateEmbedding(embed(query)).value, topK, partition, tagFilters)).value.output.value;
    SearchRoundTrip(docs, records);
  }

  // ---------------------------------------------------------------------------
  // Collections

  datatype CollectionStatus = Initialized | Serving | Dropping | Failed

  datatype CollectionInfo = CollectionInfo(status: CollectionStatus)

  datatype DescribeCollectionResponse = DescribeCollectionResponse(output: Option<CollectionInfo>)

  /** `CollectionIsReadyAsync`: ready exactly when the describe call answered
      with a collection whose status is serving; every exception reads as not
      ready. */
  function CollectionIsReady(describe: Result<DescribeCollectionResponse>): (ready: bool)
    ensures ready <==> describe.Success? && describe.value.output.Some? && describe.value.output.value.status == Serving
  {
    match describe
    case Failure(_) => false
    case Success(response) =>
      match response.output
      case None => false
      case Some(info) => info.status == Serving
  }

  datatype Metric = Euclidean | Dotproduct | Cosine

  datatype VectorDataType = FloatVector | IntVector

  datatype FieldType = BoolField | StringField | IntField | FloatField

  datatype CreateCollectionRequest = CreateCollectionRequest(
    name: string,
    dimension: int,
    metric: Metric,
    dataType: VectorDataType,
    fieldsSchema: Dictionary<string, FieldType>)

  /** `CreateCollectionAsync`: the caller chooses only the name and the schema. */
  function CreateCollection(collectionName: string, fieldsSchema: Dictionary<string, FieldType>): (r: CreateCollectionRequest)
    ensures r.name == collectionName && r.fieldsSchema == fieldsSchema
    ensures r.dimension == 1024 && r.metric == Dotproduct && r.dataType == FloatVector
  {
    CreateCollectionRequest(collectionName, Dimension, Dotproduct, FloatVector, fieldsSchema)
  }

  datatype CreatePartitionRequest = CreatePartitionRequest(name: string)

  datatype CreatePartitionCall = CreatePartitionCall(collectionName: string, request: CreatePartitionRequest)

  /** `CreatePartionAsync`: both names are passed through. */
  function CreatePartition(collectionName: string, partition: string): (r: CreatePartitionCall)
    ensures r.collectionName == collectionName && r.request.name == partition
  {
    CreatePartitionCall(collectionName, CreatePartitionRequest(partition))
  }
}
