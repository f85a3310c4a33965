/** The set-up ingestion service for documents
    (`src/persistence/db_setup/docs_to_embed_service.py`): every `.pdf` and
    `.txt` file of the docs folder is read, chunked and added to the `docs`
    collection, one record per chunk, numbered by the service's
    `chunk_counter`. */
module DbSetupDocs {
  import opened Text
  import opened Records
  import Chunker

  /** `f.endswith(('.pdf', '.txt'))`. */
  predicate IsDocFile(name: string) {
    EndsWith(name, ".pdf") || EndsWith(name, ".txt")
  }

  /** The names of the listing that end in `.pdf` or `.txt`, in listing order. */
  function DocFiles(listing: seq<string>): (files: seq<string>)
    ensures |files| <= |listing|
  {
    if listing == [] then []
    else
      DocFiles(listing[..|listing| - 1])
      + (if IsDocFile(listing[|listing| - 1]) then [listing[|listing| - 1]] else [])
  }

  /** The selected names are exactly the listed documents. */
  lemma {:induction false} DocFilesMembers(listing: seq<string>)
    ensures forall f :: f in DocFiles(listing) <==> f in listing && IsDocFile(f)
    decreases |listing|
  {
    if listing != [] {
      var front := listing[..|listing| - 1];
      var last := listing[|listing| - 1];
      DocFilesMembers(front);
      DocFilesAppend(front, last);
      assert listing == front + [last];
    }
  }

  /** Selection is a filter that keeps listing order: a name appended to the
      listing is appended to the selection when it is a document and
      dropped otherwise. */
  lemma DocFilesAppend(listing: seq<string>, name: string)
    ensures DocFiles(listing + [name]) == DocFiles(listing) + (if IsDocFile(name) then [name] else [])
  {
    assert (listing + [name])[..|listing|] == listing;
  }

  /** Selecting twice selects nothing more, and a listing of documents only
      is kept unchanged. */
  lemma DocFilesKeeps(listing: seq<string>)
    ensures (forall i :: 0 <= i < |listing| ==> IsDocFile(listing[i])) ==> DocFiles(listing) == listing
    ensures DocFiles(DocFiles(listing)) == DocFiles(listing)
  {
    if forall i :: 0 <= i < |listing| ==> IsDocFile(listing[i]) {
      DocFilesAll(listing);
    }
    var files := DocFiles(listing);
    DocFilesMembers(listing);
    forall i | 0 <= i < |files| ensures IsDocFile(files[i]) {
      assert files[i] in files;
    }
    DocFilesAll(files);
  }

  lemma {:induction false} DocFilesAll(files: seq<string>)
    requires forall i :: 0 <= i < |files| ==> IsDocFile(files[i])
    ensures DocFiles(files) == files
    decreases |files|
  {
    if files != [] {
      var front := files[..|files| - 1];
      var last := files[|files| - 1];
      DocFilesAll(front);
      DocFilesAppend(front, last);
      assert files == front + [last];
    }
  }

  /** The text of one selected file: the PDF reader for `.pdf`, the text
      reader for `.txt`, and none for any other name (the `continue`). */
  function FileText(file: string, extractPdf: string -> string, extractTxt: string -> string): (text: string)
    ensures EndsWith(file, ".pdf") ==> text == extractPdf(file)
    ensures !EndsWith(file, ".pdf") && EndsWith(file, ".txt") ==> text == extractTxt(file)
    ensures !IsDocFile(file) ==> text == ""
  {
    if EndsWith(file, ".pdf") then extractPdf(file)
    else if EndsWith(file, ".txt") then extractTxt(file)
    else ""
  }

  function DocText(extractPdf: string -> string, extractTxt: string -> string): string -> string {
    file => FileText(file, extractPdf, extractTxt)
  }

  /** The records `process_docs` adds for a folder listing, the counter
      starting at `counter`. */
  function ProcessedRecords(listing: seq<string>, counter: nat, extractPdf: string -> string,
                            extractTxt: string -> string, embed: string -> Embedding): seq<DocRecord>
  {
    DocsRecords(DocFiles(listing), counter, DocText(extractPdf, extractTxt), StandardChunks, embed)
  }

  /** Every record `process_docs` adds comes from a `.pdf` or `.txt` file and
      carries the next id in sequence. */
  lemma ProcessedRecordsSources(listing: seq<string>, counter: nat, extractPdf: string -> string,
                                extractTxt: string -> string, embed: string -> Embedding, j: nat)
    requires j < |ProcessedRecords(listing, counter, extractPdf, extractTxt, embed)|
    ensures var r := ProcessedRecords(listing, counter, extractPdf, extractTxt, embed)[j];
      r.id == ChunkId(counter + j) && r.source in listing && IsDocFile(r.source)
  {
    DocFilesMembers(listing);
    DocsRecordsIdAt(DocFiles(listing), counter, DocText(extractPdf, extractTxt), StandardChunks, embed, j);
    DocsRecordsSourceAt(DocFiles(listing), counter, DocText(extractPdf, extractTxt), StandardChunks, embed, j);
  }

  class DocsToEmbedService {
    /** `self.chunk_counter`: the number of the next chunk id. */
    var chunkCounter: nat

    constructor ()
      ensures chunkCounter == 0
    {
      chunkCounter := 0;
    }

    /** The embedding batch and the `for i, chunk in enumerate(chunks)` loop:
        one record per chunk, numbered by the counter. */
    method AddChunks(docs: Collection<DocRecord>, file: string, chunks: seq<string>,
                     embed: string -> Embedding)
      modifies this, docs
      ensures docs.records == old(docs.records) + ChunkRecords(file, chunks, old(chunkCounter), embed)
      ensures chunkCounter == old(chunkCounter) + |chunks|
    {
      var embeddings := seq(|chunks|, j requires 0 <= j < |chunks| => embed(chunks[j]));
      ghost var start := docs.records;
      ghost var c := chunkCounter;
      ghost var batch := ChunkRecords(file, chunks, c, embed);
      for i := 0 to |chunks|
        invariant docs.records == start + batch[..i]
        invariant chunkCounter == c + i
      {
        docs.Add(DocRecord(ChunkId(chunkCounter), chunks[i], embeddings[i], file, i, |chunks|));
        chunkCounter := chunkCounter + 1;
        assert batch[..i + 1] == batch[..i] + [batch[i]];
      }
      assert batch[..|chunks|] == batch;
    }

    /** `process_docs()`. The folder test, the listing and the two readers are
        parameters; `docs` is the `docs` collection. */
    method ProcessDocs(docs: Collection<DocRecord>, folderExists: bool, listing: seq<string>,
                       extractPdf: string -> string, extractTxt: string -> string,
                       embed: string -> Embedding)
      modifies this, docs
      ensures !folderExists ==> docs.records == old(docs.records) && chunkCounter == old(chunkCounter)
      ensures folderExists ==>
        var added := ProcessedRecords(listing, old(chunkCounter), extractPdf, extractTxt, embed);
        docs.records == old(docs.records) + added && chunkCounter == old(chunkCounter) + |added|
    {
      if !folderExists {
        return;
      }
      var files := DocFiles(listing);
      ghost var extract := DocText(extractPdf, extractTxt);
      ghost var c0 := chunkCounter;
      ghost var base := docs.records;
      for k := 0 to |files|
        invariant docs.records == base + DocsRecords(files[..k], c0, extract, StandardChunks, embed)
        invariant chunkCounter == c0 + |DocsRecords(files[..k], c0, extract, StandardChunks, embed)|
      {
        var file := files[k];
        ghost var done := DocsRecords(files[..k], c0, extract, StandardChunks, embed);
        var text;
        if EndsWith(file, ".pdf") {
          text := extractPdf(file);
        } else if EndsWith(file, ".txt") {
          text := extractTxt(file);
        } else {
          DocsRecordsSkip(files, k, c0, extract, StandardChunks, embed);
          continue;
        }
        assert text == extract(file);
        if text != "" {
          var chunks := Chunker.ChunkText(text, Chunker.MaxLength);
          assert chunks == StandardChunks(text);
          ghost var batch := ChunkRecords(file, chunks, chunkCounter, embed);
          DocsRecordsChunks(files, k, c0, extract, StandardChunks, embed, chunks, chunkCounter);
          AddChunks(docs, file, chunks, embed);
          AppendAssoc(base, done, batch);
        } else {
          DocsRecordsSkip(files, k, c0, extract, StandardChunks, embed);
        }
      }
      assert files[..|files|] == files;
    }
  }
}
