/** The application-side copy of the document ingestion service
    (`src/services/docs_to_embed_service.py`): the same chunker and the same
    record loop, over the `.pdf` files of the docs folder only. */
module ServiceDocs {
  import opened Text
  import opened Records
  import Chunker

  /** `[f for f in os.listdir(self.docs_path) if f.endswith('.pdf')]`. */
  function PdfFiles(listing: seq<string>): (files: seq<string>)
    ensures |files| <= |listing|
    ensures forall f :: f in files <==> f in listing && EndsWith(f, ".pdf")
  {
    if listing == [] then []
    else
      PdfFiles(listing[..|listing| - 1])
      + (if EndsWith(listing[|listing| - 1], ".pdf") then [listing[|listing| - 1]] else [])
  }

  /** The selection keeps the listing order: it is the listing with the
      other names removed, so selecting after appending a name selects that
      name last, if at all. */
  lemma PdfFilesAppend(listing: seq<string>, name: string)
    ensures PdfFiles(listing + [name]) == PdfFiles(listing) + (if EndsWith(name, ".pdf") then [name] else [])
  {
    assert (listing + [name])[..|listing|] == listing;
  }

  /** The records `process_pdfs` adds for a folder listing, the counter
      starting at `counter`. */
  function ProcessedRecords(listing: seq<string>, counter: nat, extractPdf: string -> string,
                            embed: string -> Embedding): seq<DocRecord>
  {
    DocsRecords(PdfFiles(listing), counter, extractPdf, StandardChunks, embed)
  }

  /** Every record `process_pdfs` adds comes from a `.pdf` file of the
      listing and carries the next id in sequence. */
  lemma ProcessedRecordsSources(listing: seq<string>, counter: nat, extractPdf: string -> string,
                                embed: string -> Embedding, j: nat)
    requires j < |ProcessedRecords(listing, counter, extractPdf, embed)|
    ensures var r := ProcessedRecords(listing, counter, extractPdf, embed)[j];
      r.id == ChunkId(counter + j) && r.source in listing && EndsWith(r.source, ".pdf")
  {
    DocsRecordsIdAt(PdfFiles(listing), counter, extractPdf, StandardChunks, embed, j);
    DocsRecordsSourceAt(PdfFiles(listing), counter, extractPdf, StandardChunks, embed, j);
  }

  class DocsToEmbedService {
    /** `self.chunk_counter`: the number of the next chunk id. */
    var chunkCounter: nat

    constructor ()
      ensures chunkCounter == 0
    {
      chunkCounter := 0;
    }

    /** The embedding batch and the `for i, chunk in enumerate(chunks)` loop. */
    method AddChunks(docs: Collection<DocRecord>, pdfFile: string, chunks: seq<string>,
                     embed: string -> Embedding)
      modifies this, docs
      ensures docs.records == old(docs.records) + ChunkRecords(pdfFile, chunks, old(chunkCounter), embed)
      ensures chunkCounter == old(chunkCounter) + |chunks|
    {
      var embeddings := seq(|chunks|, j requires 0 <= j < |chunks| => embed(chunks[j]));
      ghost var start := docs.records;
      ghost var c := chunkCounter;
      ghost var batch := ChunkRecords(pdfFile, chunks, c, embed);
      for i := 0 to |chunks|
        invariant docs.records == start + batch[..i]
        invariant chunkCounter == c + i
      {
        docs.Add(DocRecord(ChunkId(chunkCounter), chunks[i], embeddings[i], pdfFile, i, |chunks|));
        chunkCounter := chunkCounter + 1;
        assert batch[..i + 1] == batch[..i] + [batch[i]];
      }
      assert batch[..|chunks|] == batch;
    }

    /** `process_pdfs()`. The folder test, the listing and the PDF reader are
        parameters; `docs` is the `docs` collection. */
    method ProcessPdfs(docs: Collection<DocRecord>, folderExists: bool, listing: seq<string>,
                       extractPdf: string -> string, embed: string -> Embedding)
      modifies this, docs
      ensures !folderExists ==> docs.records == old(docs.records) && chunkCounter == old(chunkCounter)
      ensures folderExists ==>
        var added := ProcessedRecords(listing, old(chunkCounter), extractPdf, embed);
        docs.records == old(docs.records) + added && chunkCounter == old(chunkCounter) + |added|
    {
      if !folderExists {
        return;
      }
      var pdfFiles := PdfFiles(listing);
      ghost var c0 := chunkCounter;
      ghost var base := docs.records;
      for k := 0 to |pdfFiles|
        invariant docs.records == base + DocsRecords(pdfFiles[..k], c0, extractPdf, StandardChunks, embed)
        invariant chunkCounter == c0 + |DocsRecords(pdfFiles[..k], c0, extractPdf, StandardChunks, embed)|
      {
        var pdfFile := pdfFiles[k];
        ghost var done := DocsRecords(pdfFiles[..k], c0, extractPdf, StandardChunks, embed);
        var text := extractPdf(pdfFile);
        if text != "" {
          var chunks := Chunker.ChunkText(text, Chunker.MaxLength);
          assert chunks == StandardChunks(text);
          ghost var batch := ChunkRecords(pdfFile, chunks, chunkCounter, embed);
          DocsRecordsChunks(pdfFiles, k, c0, extractPdf, StandardChunks, embed, chunks, chunkCounter);
          AddChunks(docs, pdfFile, chunks, embed);
          AppendAssoc(base, done, batch);
        } else {
          DocsRecordsSkip(pdfFiles, k, c0, extractPdf, StandardChunks, embed);
        }
      }
      assert pdfFiles[..|pdfFiles|] == pdfFiles;
    }
  }
}
