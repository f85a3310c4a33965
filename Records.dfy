/** The vector store as the ingestion services see it: a collection that
    records are appended to, one record per embedded text, each carrying an
    id, the text, its embedding and its metadata. */
module Records {
  import opened Text
  import Chunker

  /** One embedding vector, as the model's `tolist()` hands it over. */
  type Embedding = seq<real>

  /** A record of the `docs` collection: metadata `source`, `chunk` and
      `total_chunks`. */
  datatype DocRecord = DocRecord(
    id: string, document: string, embedding: Embedding,
    source: string, chunk: nat, totalChunks: nat)

  /** A record of the `intent` collection: metadata `intent`, `example_id`
      and `total_examples`. */
  datatype IntentRecord = IntentRecord(
    id: string, document: string, embedding: Embedding,
    intent: string, exampleId: nat, totalExamples: nat)

  /** A collection seen only through `add`: the records in insertion order. */
  class Collection<T> {
    var records: seq<T>

    constructor ()
      ensures records == []
    {
      records := [];
    }

    /** `collection.add(ids=[..], documents=[..], ...)` with one entry. */
    method Add(r: T)
      modifies this
      ensures records == old(records) + [r]
    {
      records := records + [r];
    }
  }

  /** `f"chunk_{n}"`. */
  function ChunkId(n: nat): string {
    "chunk_" + NatToString(n)
  }

  /** `f"intent_{n}"`. */
  function IntentId(n: nat): string {
    "intent_" + NatToString(n)
  }

  /** Counter values and ids determine each other. */
  lemma ChunkIdInjective(a: nat, b: nat)
    ensures ChunkId(a) == ChunkId(b) <==> a == b
  {
    if ChunkId(a) == ChunkId(b) {
      TaggedInjective("chunk_", a, b);
    }
  }

  lemma IntentIdInjective(a: nat, b: nat)
    ensures IntentId(a) == IntentId(b) <==> a == b
  {
    if IntentId(a) == IntentId(b) {
      TaggedInjective("intent_", a, b);
    }
  }

  // ---------------------------------------------------------------------
  // Document records
  // ---------------------------------------------------------------------

  /** The records the `for i, chunk in enumerate(chunks)` loop adds for the
      chunks of one source file, the counter starting at `counter`. */
  function ChunkRecords(source: string, chunks: seq<string>, counter: nat,
                        embed: string -> Embedding): (rs: seq<DocRecord>)
    ensures |rs| == |chunks|
  {
    seq(|chunks|, i requires 0 <= i < |chunks| =>
      DocRecord(ChunkId(counter + i), chunks[i], embed(chunks[i]), source, i, |chunks|))
  }

  /** The chunker the services call: `chunk_text(text, max_length=500)`. */
  function StandardChunks(text: string): seq<string> {
    Chunker.Chunks(text, Chunker.MaxLength)
  }

  /** What one file contributes: nothing for empty extracted text (`if text:`),
      otherwise one record per chunk that `chunker` yields for it. */
  function SourceRecords(source: string, text: string, counter: nat,
                         chunker: string -> seq<string>, embed: string -> Embedding): seq<DocRecord>
  {
    if text == "" then [] else ChunkRecords(source, chunker(text), counter, embed)
  }

  /** What the file loop adds for `files`, in order, the counter starting
      at `counter` and each file's text given by `extract`. */
  function DocsRecords(files: seq<string>, counter: nat, extract: string -> string,
                       chunker: string -> seq<string>, embed: string -> Embedding): seq<DocRecord>
    decreases |files|
  {
    if files == [] then []
    else
      DocsRecords(files[..|files| - 1], counter, extract, chunker, embed)
      + SourceRecords(files[|files| - 1], extract(files[|files| - 1]),
          counter + |DocsRecords(files[..|files| - 1], counter, extract, chunker, embed)|, chunker, embed)
  }

  /** Each record of a file's batch: the counter's id, the chunk as document,
      its position and the batch size as metadata. */
  lemma ChunkRecordsFields(source: string, chunks: seq<string>, counter: nat,
                           embed: string -> Embedding, i: nat)
    requires i < |chunks|
    ensures var r := ChunkRecords(source, chunks, counter, embed)[i];
      r.id == ChunkId(counter + i) && r.document == chunks[i] &&
      r.embedding == embed(chunks[i]) && r.source == source &&
      r.chunk == i && r.totalChunks == |chunks|
  {
  }

  /** The documents of a batch are the chunks, in order. */
  function Documents(rs: seq<DocRecord>): (ds: seq<string>)
    ensures |ds| == |rs|
    ensures forall i :: 0 <= i < |rs| ==> ds[i] == rs[i].document
  {
    seq(|rs|, i requires 0 <= i < |rs| => rs[i].document)
  }

  lemma ChunkRecordsDocuments(source: string, chunks: seq<string>, counter: nat,
                              embed: string -> Embedding)
    ensures Documents(ChunkRecords(source, chunks, counter, embed)) == chunks
  {
  }

  /** A file adds records exactly when its extracted text is non-empty; a
      blank but non-empty text still adds one record, for the chunk `""`. */
  lemma SourceRecordsEmptyIff(source: string, text: string, counter: nat,
                              embed: string -> Embedding)
    ensures SourceRecords(source, text, counter, StandardChunks, embed) == [] <==> text == ""
    ensures text != "" && AllSpace(text) ==>
      Documents(SourceRecords(source, text, counter, StandardChunks, embed)) == [""]
  {
    if text != "" {
      Chunker.ChunksEmptyIff(text, Chunker.MaxLength);
      if AllSpace(text) {
        Chunker.BlankText(text, Chunker.MaxLength);
      }
    }
  }

  /** Across the whole file loop the ids are consecutive: the `j`-th record
      added carries `chunk_{counter + j}`. */
  lemma {:induction false} DocsRecordsIdAt(files: seq<string>, counter: nat, extract: string -> string,
                                           chunker: string -> seq<string>, embed: string -> Embedding, j: nat)
    requires j < |DocsRecords(files, counter, extract, chunker, embed)|
    ensures DocsRecords(files, counter, extract, chunker, embed)[j].id == ChunkId(counter + j)
    decreases |files|
  {
    var front := files[..|files| - 1];
    var last := files[|files| - 1];
    var done := DocsRecords(front, counter, extract, chunker, embed);
    DocsRecordsStep(files, counter, extract, chunker, embed);
    if j < |done| {
      DocsRecordsIdAt(front, counter, extract, chunker, embed, j);
    } else {
      SourceRecordsFields(last, extract(last), counter + |done|, chunker, embed, j - |done|);
    }
  }

  /** The `j`-th record added comes from one of `files`. */
  lemma {:induction false} DocsRecordsSourceAt(files: seq<string>, counter: nat, extract: string -> string,
                                               chunker: string -> seq<string>, embed: string -> Embedding, j: nat)
    requires j < |DocsRecords(files, counter, extract, chunker, embed)|
    ensures DocsRecords(files, counter, extract, chunker, embed)[j].source in files
    decreases |files|
  {
    var front := files[..|files| - 1];
    var last := files[|files| - 1];
    var done := DocsRecords(front, counter, extract, chunker, embed);
    DocsRecordsStep(files, counter, extract, chunker, embed);
    if j < |done| {
      DocsRecordsSourceAt(front, counter, extract, chunker, embed, j);
      InFront(files, done[j].source);
    } else {
      SourceRecordsFields(last, extract(last), counter + |done|, chunker, embed, j - |done|);
      assert last in files;
    }
  }

  lemma DocsRecordsStep(files: seq<string>, counter: nat, extract: string -> string,
                        chunker: string -> seq<string>, embed: string -> Embedding)
    requires files != []
    ensures var done := DocsRecords(files[..|files| - 1], counter, extract, chunker, embed);
      var last := files[|files| - 1];
      DocsRecords(files, counter, extract, chunker, embed) == done + SourceRecords(last, extract(last), counter + |done|, chunker, embed)
  {
  }

  /** One more file of the loop. */
  lemma DocsRecordsSnoc(files: seq<string>, k: nat, counter: nat, extract: string -> string,
                        chunker: string -> seq<string>, embed: string -> Embedding)
    requires k < |files|
    ensures var done := DocsRecords(files[..k], counter, extract, chunker, embed);
      DocsRecords(files[..k + 1], counter, extract, chunker, embed)
        == done + SourceRecords(files[k], extract(files[k]), counter + |done|, chunker, embed)
  {
    DocsRecordsStep(files[..k + 1], counter, extract, chunker, embed);
    assert files[..k + 1][..k] == files[..k];
  }

  /** One more file whose text is empty: nothing is added. */
  lemma DocsRecordsSkip(files: seq<string>, k: nat, counter: nat, extract: string -> string,
                        chunker: string -> seq<string>, embed: string -> Embedding)
    requires k < |files| && extract(files[k]) == ""
    ensures DocsRecords(files[..k + 1], counter, extract, chunker, embed)
      == DocsRecords(files[..k], counter, extract, chunker, embed)
  {
    DocsRecordsSnoc(files, k, counter, extract, chunker, embed);
    var done := DocsRecords(files[..k], counter, extract, chunker, embed);
    assert done + [] == done;
  }

  /** One more file with text: the records of its `chunks` are added,
      numbered from `c`. */
  lemma DocsRecordsChunks(files: seq<string>, k: nat, counter: nat, extract: string -> string,
                          chunker: string -> seq<string>, embed: string -> Embedding,
                          chunks: seq<string>, c: nat)
    requires k < |files| && extract(files[k]) != ""
    requires chunker(extract(files[k])) == chunks
    requires c == counter + |DocsRecords(files[..k], counter, extract, chunker, embed)|
    ensures DocsRecords(files[..k + 1], counter, extract, chunker, embed)
      == DocsRecords(files[..k], counter, extract, chunker, embed) + ChunkRecords(files[k], chunks, c, embed)
  {
    DocsRecordsSnoc(files, k, counter, extract, chunker, embed);
    SourceRecordsOf(files[k], extract(files[k]), c, chunker, embed);
  }

  lemma SourceRecordsOf(source: string, text: string, counter: nat,
                        chunker: string -> seq<string>, embed: string -> Embedding)
    ensures text == "" ==> SourceRecords(source, text, counter, chunker, embed) == []
    ensures text != "" ==>
      SourceRecords(source, text, counter, chunker, embed) == ChunkRecords(source, chunker(text), counter, embed)
  {
  }

  lemma AppendAssoc<T>(a: seq<T>, b: seq<T>, c: seq<T>)
    ensures a + b + c == a + (b + c)
  {
  }

  lemma InFront(files: seq<string>, x: string)
    requires files != [] && x in files[..|files| - 1]
    ensures x in files
  {
  }

  lemma SourceRecordsFields(source: string, text: string, counter: nat,
                            chunker: string -> seq<string>, embed: string -> Embedding, i: nat)
    requires i < |SourceRecords(source, text, counter, chunker, embed)|
    ensures SourceRecords(source, text, counter, chunker, embed)[i].id == ChunkId(counter + i)
    ensures SourceRecords(source, text, counter, chunker, embed)[i].source == source
  {
  }

  /** Hence no two records of one run share an id. */
  lemma DocsRecordsDistinctIds(files: seq<string>, counter: nat, extract: string -> string,
                               chunker: string -> seq<string>, embed: string -> Embedding, j: nat, k: nat)
    requires j < k < |DocsRecords(files, counter, extract, chunker, embed)|
    ensures DocsRecords(files, counter, extract, chunker, embed)[j].id != DocsRecords(files, counter, extract, chunker, embed)[k].id
  {
    DocsRecordsIdAt(files, counter, extract, chunker, embed, j);
    DocsRecordsIdAt(files, counter, extract, chunker, embed, k);
    ChunkIdInjective(counter + j, counter + k);
  }

  // ---------------------------------------------------------------------
  // Intent records
  // ---------------------------------------------------------------------

  /** One entry of the intent training data: `{"text": .., "intent": ..}`. */
  datatype Example = Example(text: string, intent: string)

  /** The records the `for i, item in enumerate(INTENT_TRAINING_DATA)` loop
      adds, the counter starting at `counter`. */
  function IntentRecords(data: seq<Example>, counter: nat, embed: string -> Embedding): (rs: seq<IntentRecord>)
    ensures |rs| == |data|
  {
    seq(|data|, i requires 0 <= i < |data| =>
      IntentRecord(IntentId(counter + i), data[i].text, embed(data[i].text), data[i].intent, i, |data|))
  }

  /** Record `i` mirrors item `i`, numbered from the counter. */
  lemma IntentRecordsFields(data: seq<Example>, counter: nat, embed: string -> Embedding, i: nat)
    requires i < |data|
    ensures var r := IntentRecords(data, counter, embed)[i];
      r.id == IntentId(counter + i) && r.document == data[i].text &&
      r.embedding == embed(data[i].text) && r.intent == data[i].intent &&
      r.exampleId == i && r.totalExamples == |data|
  {
  }

  lemma IntentRecordsDistinctIds(data: seq<Example>, counter: nat, embed: string -> Embedding, j: nat, k: nat)
    requires j < k < |data|
    ensures IntentRecords(data, counter, embed)[j].id != IntentRecords(data, counter, embed)[k].id
  {
    IntentIdInjective(counter + j, counter + k);
  }
}
