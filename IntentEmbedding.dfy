/** The intent ingestion service
    (`src/persistence/db_setup/intent_to_embed_service.py`): every training
    example becomes one record of the `intent` collection, numbered by the
    service's `chunk_counter`, and the examples are tallied per intent. */
module IntentEmbedding {
  import opened Records
  import IntentsData

  /** `intent_counts.get(intent, 0)`. */
  function Get(counts: map<string, nat>, intent: string): nat {
    if intent in counts then counts[intent] else 0
  }

  /** `intent_counts[intent] = intent_counts.get(intent, 0) + 1`. */
  function Bump(counts: map<string, nat>, intent: string): map<string, nat> {
    counts[intent := Get(counts, intent) + 1]
  }

  /** `intent_counts` after the tally loop has seen `data`. */
  function Tally(data: seq<Example>): map<string, nat>
    decreases |data|
  {
    if data == [] then map[] else Bump(Tally(data[..|data| - 1]), data[|data| - 1].intent)
  }

  /** One more turn of the tally loop. */
  lemma TallySnoc(data: seq<Example>, i: nat)
    requires i < |data|
    ensures Tally(data[..i + 1]) == Tally(data[..i])[data[i].intent := Get(Tally(data[..i]), data[i].intent) + 1]
  {
    assert data[..i + 1][..i] == data[..i];
  }

  /** Reference definition: the number of examples labelled `intent`. */
  function Count(data: seq<Example>, intent: string): nat
    decreases |data|
  {
    if data == [] then 0
    else (if data[0].intent == intent then 1 else 0) + Count(data[1..], intent)
  }

  lemma {:induction false} CountAppend(a: seq<Example>, b: seq<Example>, intent: string)
    ensures Count(a + b, intent) == Count(a, intent) + Count(b, intent)
    decreases |a|
  {
    if a != [] {
      assert (a + b)[1..] == a[1..] + b;
      CountAppend(a[1..], b, intent);
    } else {
      assert a + b == b;
    }
  }

  /** Some example carries the label exactly when the count is positive. */
  lemma {:induction false} CountPositive(data: seq<Example>, intent: string)
    ensures Count(data, intent) > 0 <==> exists i :: 0 <= i < |data| && data[i].intent == intent
    decreases |data|
  {
    if data != [] {
      CountPositive(data[1..], intent);
      if exists i :: 0 <= i < |data| && data[i].intent == intent {
        var i :| 0 <= i < |data| && data[i].intent == intent;
        if i > 0 {
          assert data[1..][i - 1].intent == intent;
        }
      }
      if exists i :: 0 <= i < |data[1..]| && data[1..][i].intent == intent {
        var i :| 0 <= i < |data[1..]| && data[1..][i].intent == intent;
        assert data[i + 1].intent == intent;
      }
    }
  }

  /** The tally loop counts: a label is a key exactly when it occurs, and its
      value is the number of examples carrying it. */
  lemma {:induction false} TallyIsCount(data: seq<Example>)
    ensures forall intent :: intent in Tally(data) <==> Count(data, intent) > 0
    ensures forall intent :: intent in Tally(data) ==> Tally(data)[intent] == Count(data, intent)
    decreases |data|
  {
    if data != [] {
      var front := data[..|data| - 1];
      var last := data[|data| - 1];
      TallyIsCount(front);
      assert data == front + [last];
      forall intent | true
        ensures Count(data, intent) == Count(front, intent) + (if last.intent == intent then 1 else 0)
      {
        CountAppend(front, [last], intent);
        assert [last][1..] == [];
      }
    }
  }

  /** A label is a key of `intent_counts` if and only if some example has it. */
  lemma TallyKeys(data: seq<Example>, intent: string)
    ensures intent in Tally(data) <==> exists i :: 0 <= i < |data| && data[i].intent == intent
  {
    TallyIsCount(data);
    CountPositive(data, intent);
  }

  // ---------------------------------------------------------------------
  // The counts sum to the number of examples
  // ---------------------------------------------------------------------

  predicate Distinct(ls: seq<string>) {
    forall i, j :: 0 <= i < j < |ls| ==> ls[i] != ls[j]
  }

  /** The keys of `intent_counts` in dictionary order: first occurrence. */
  function Labels(data: seq<Example>): seq<string>
    decreases |data|
  {
    if data == [] then [] else AddLabel(Labels(data[..|data| - 1]), data[|data| - 1].intent)
  }

  /** A dictionary key list after an assignment to `intent`: a new key goes last. */
  function AddLabel(ls: seq<string>, intent: string): seq<string> {
    if intent in ls then ls else ls + [intent]
  }

  /** The sum of the counts listed under `ls`. */
  function SumOver(ls: seq<string>, counts: map<string, nat>): nat
    decreases |ls|
  {
    if ls == [] then 0 else SumOver(ls[..|ls| - 1], counts) + Get(counts, ls[|ls| - 1])
  }

  lemma {:induction false} SumOverUnchanged(ls: seq<string>, counts: map<string, nat>, intent: string, v: nat)
    requires intent !in ls
    ensures SumOver(ls, counts[intent := v]) == SumOver(ls, counts)
    decreases |ls|
  {
    if ls != [] {
      SumOverUnchanged(ls[..|ls| - 1], counts, intent, v);
    }
  }

  lemma {:induction false} SumOverBump(ls: seq<string>, counts: map<string, nat>, intent: string)
    requires Distinct(ls) && intent in ls
    ensures SumOver(ls, counts[intent := Get(counts, intent) + 1]) == SumOver(ls, counts) + 1
    decreases |ls|
  {
    var front := ls[..|ls| - 1];
    if ls[|ls| - 1] == intent {
      SumOverUnchanged(front, counts, intent, Get(counts, intent) + 1);
    } else {
      SumOverBump(front, counts, intent);
    }
  }

  /** The keys in dictionary order are distinct, each key is listed, and the
      counts add up to the number of examples. */
  ghost predicate Summed(data: seq<Example>) {
    Distinct(Labels(data))
    && (forall intent :: intent in Labels(data) <==> intent in Tally(data))
    && SumOver(Labels(data), Tally(data)) == |data|
  }

  lemma DistinctSnoc(ls: seq<string>, x: string)
    requires Distinct(ls) && x !in ls
    ensures Distinct(ls + [x])
  {
  }

  /** A label seen before: its count goes up by one. */
  lemma SummedSeen(data: seq<Example>)
    requires data != [] && Summed(data[..|data| - 1])
    requires data[|data| - 1].intent in Labels(data[..|data| - 1])
    ensures Summed(data)
  {
    var front := data[..|data| - 1];
    var intent := data[|data| - 1].intent;
    var counts := Tally(front);
    assert Labels(data) == Labels(front);
    assert Tally(data) == counts[intent := Get(counts, intent) + 1];
    assert intent in counts;
    SumOverBump(Labels(front), counts, intent);
  }

  lemma SumOverSnoc(ls: seq<string>, x: string, counts: map<string, nat>)
    ensures SumOver(ls + [x], counts) == SumOver(ls, counts) + Get(counts, x)
  {
    assert (ls + [x])[..|ls|] == ls;
  }

  /** A new label: it is listed last with count one. */
  lemma SummedNew(data: seq<Example>)
    requires data != [] && Summed(data[..|data| - 1])
    requires data[|data| - 1].intent !in Labels(data[..|data| - 1])
    ensures Summed(data)
  {
    var front := data[..|data| - 1];
    var intent := data[|data| - 1].intent;
    var ls := Labels(front);
    var counts := Tally(front);
    var bumped := counts[intent := Get(counts, intent) + 1];
    assert Labels(data) == ls + [intent];
    assert Tally(data) == bumped;
    assert intent !in counts;
    DistinctSnoc(ls, intent);
    assert forall k :: k in ls + [intent] <==> k in bumped;
    SumOverUnchanged(ls, counts, intent, 1);
    SumOverSnoc(ls, intent, bumped);
    assert SumOver(ls + [intent], bumped) == |front| + 1;
  }

  lemma {:induction false} TallySum(data: seq<Example>)
    ensures Distinct(Labels(data))
    ensures forall intent :: intent in Labels(data) <==> intent in Tally(data)
    ensures SumOver(Labels(data), Tally(data)) == |data|
    decreases |data|
  {
    if data != [] {
      var front := data[..|data| - 1];
      TallySum(front);
      if data[|data| - 1].intent in Labels(front) {
        SummedSeen(data);
      } else {
        SummedNew(data);
      }
    }
  }

  // ---------------------------------------------------------------------
  // The service
  // ---------------------------------------------------------------------

  class IntentToEmbedService {
    /** `self.chunk_counter`: the number of the next intent id. */
    var chunkCounter: nat

    constructor ()
      ensures chunkCounter == 0
    {
      chunkCounter := 0;
    }

    /** The loop `for i, item in enumerate(INTENT_TRAINING_DATA)`: one
        record per example, numbered from the counter, after one batch
        encoding of all the texts. */
    method AddExamples(intents: Collection<IntentRecord>, data: seq<Example>, embed: string -> Embedding)
      modifies this, intents
      ensures intents.records == old(intents.records) + IntentRecords(data, old(chunkCounter), embed)
      ensures chunkCounter == old(chunkCounter) + |data|
    {
      var texts := seq(|data|, i requires 0 <= i < |data| => data[i].text);
      var embeddings := seq(|texts|, i requires 0 <= i < |texts| => embed(texts[i]));
      ghost var start := intents.records;
      ghost var c := chunkCounter;
      ghost var batch := IntentRecords(data, c, embed);
      for i := 0 to |data|
        invariant intents.records == start + batch[..i]
        invariant chunkCounter == c + i
      {
        var item := data[i];
        var record := IntentRecord(IntentId(chunkCounter), item.text, embeddings[i], item.intent, i, |data|);
        assert record == batch[i];
        intents.Add(record);
        chunkCounter := chunkCounter + 1;
        assert batch[..i + 1] == batch[..i] + [batch[i]];
      }
      assert batch[..|data|] == batch;
    }

    /** `process_intents()` over `data` (the service passes
        `INTENT_TRAINING_DATA`); `intents` is the `intent` collection. The
        result is `intent_counts`. */
    method ProcessIntents(intents: Collection<IntentRecord>, data: seq<Example>,
                          embed: string -> Embedding) returns (counts: map<string, nat>)
      modifies this, intents
      ensures intents.records == old(intents.records) + IntentRecords(data, old(chunkCounter), embed)
      ensures chunkCounter == old(chunkCounter) + |data|
      ensures counts == Tally(data)
    {
      AddExamples(intents, data, embed);
      ghost var added, next := intents.records, chunkCounter;
      counts := map[];
      for i := 0 to |data|
        invariant intents.records == added && chunkCounter == next
        invariant counts == Tally(data[..i])
      {
        var intent := data[i].intent;
        counts := counts[intent := (if intent in counts then counts[intent] else 0) + 1];
        TallySnoc(data, i);
      }
      assert data[..|data|] == data;
    }
  }

  // ---------------------------------------------------------------------
  // The corpus the service is run on
  // ---------------------------------------------------------------------

  lemma {:induction false} CountTagged(ts: seq<string>, tag: string, intent: string)
    ensures Count(IntentsData.Tagged(ts, tag), intent) == if tag == intent then |ts| else 0
    decreases |ts|
  {
    if ts != [] {
      assert IntentsData.Tagged(ts, tag)[1..] == IntentsData.Tagged(ts[1..], tag);
      CountTagged(ts[1..], tag, intent);
    }
  }

  /** A corpus of `"sql"` texts followed by `"docs"` texts has exactly those
      two keys, counting the texts of each. */
  lemma CorpusTally(sql: seq<string>, docs: seq<string>)
    requires sql != [] && docs != []
    ensures Tally(IntentsData.Tagged(sql, "sql") + IntentsData.Tagged(docs, "docs"))
      == map["sql" := |sql|, "docs" := |docs|]
  {
    var data := IntentsData.Tagged(sql, "sql") + IntentsData.Tagged(docs, "docs");
    TallyIsCount(data);
    forall intent | true
      ensures Count(data, intent) ==
        (if intent == "sql" then |sql| else 0) + (if intent == "docs" then |docs| else 0)
    {
      CountAppend(IntentsData.Tagged(sql, "sql"), IntentsData.Tagged(docs, "docs"), intent);
      CountTagged(sql, "sql", intent);
      CountTagged(docs, "docs", intent);
    }
  }

  /** On `INTENT_TRAINING_DATA` the summary is 20 `"sql"` and 68 `"docs"`
      examples, and nothing else. */
  lemma TrainingTally()
    ensures Tally(IntentsData.TrainingData) == map["sql" := 20, "docs" := 68]
  {
    CorpusTally(IntentsData.SqlTexts, IntentsData.DocsTexts);
  }

  /** Loading `INTENT_TRAINING_DATA` stores 88 records, each under `"sql"` or
      `"docs"`: the `"ambiguo"` intent is never stored. */
  lemma TrainingRecordsLabels(counter: nat, embed: string -> Embedding)
    ensures |IntentRecords(IntentsData.TrainingData, counter, embed)| == 88
    ensures forall j :: 0 <= j < 88 ==>
      var r := IntentRecords(IntentsData.TrainingData, counter, embed)[j];
      (r.intent == "sql" || r.intent == "docs") && r.intent != "ambiguo" && r.totalExamples == 88
  {
    IntentsData.TrainingDataShape();
  }
}
