/** The sentence-aware chunker `chunk_text`, which both document services
    share byte for byte: newlines become spaces, the text is stripped, cut
    into sentences at every run of spaces that follows `.`, `!` or `?`, and
    the sentences are packed greedily into chunks of about `max_length`
    characters. */
module Chunker {
  import opened Text

  /** The default and only `max_length` the services pass. */
  const MaxLength: int := 500

  // ---------------------------------------------------------------------
  // Sentences: re.split(r'(?<=[.!?]) +', text)
  // ---------------------------------------------------------------------

  predicate IsTerminator(c: char) {
    c == '.' || c == '!' || c == '?'
  }

  /** The pattern matches at index `i`: a space preceded by a terminator. A
      match swallows the whole run of spaces, so the positions inside a run
      are never cut points of their own (their predecessor is a space). */
  predicate CutAt(s: string, i: int) {
    0 < i < |s| && IsTerminator(s[i - 1]) && s[i] == ' '
  }

  /** A piece that ends in a terminator, as every piece but the last does. */
  predicate EndsSentence(p: string) {
    |p| >= 1 && IsTerminator(p[|p| - 1])
  }

  predicate NoCut(s: string) {
    forall i :: 0 <= i < |s| ==> !CutAt(s, i)
  }

  /** The first cut point at or after `from`, or `|s|` when there is none. */
  function FirstCut(s: string, from: nat): (k: nat)
    ensures from <= k || k == |s|
    ensures k <= |s| || k == from
    ensures k < |s| ==> CutAt(s, k)
    ensures forall i :: from <= i < k ==> !CutAt(s, i)
    decreases |s| - from
  {
    if from >= |s| then |s| else if CutAt(s, from) then from else FirstCut(s, from + 1)
  }

  /** Drops the leading run of spaces (the ` +` of the pattern). */
  function SkipSpaces(s: string): (r: string)
    ensures |r| <= |s| && r == s[|s| - |r|..]
    ensures forall i :: 0 <= i < |s| - |r| ==> s[i] == ' '
    ensures r == [] || r[0] != ' '
  {
    if s != [] && s[0] == ' ' then
      var r := SkipSpaces(s[1..]);
      assert s[1..][|s| - 1 - |r|..] == s[|s| - |r|..];
      assert forall i :: 1 <= i < |s| - |r| ==> s[i] == s[1..][i - 1];
      r
    else s
  }

  /** The pieces `re.split(r'(?<=[.!?]) +', s)` returns: at least one; joined
      by single spaces they give back `s` with every break shrunk to one
      space; none of them holds a cut point; and every piece but the last
      ends in a terminator, so the pieces break at cut points only. */
  function Sentences(s: string): (r: seq<string>)
    ensures |r| >= 1
    ensures JoinSpaced(r) == Collapse(s)
    ensures forall j :: 0 <= j < |r| ==> NoCut(r[j])
    ensures forall j :: 0 <= j < |r| - 1 ==> EndsSentence(r[j])
    decreases |s|
  {
    var k := FirstCut(s, 1);
    if k >= |s| then
      CollapseNoCut(s);
      [s]
    else
      var rest := Sentences(SkipSpaces(s[k..]));
      PiecesCons(s, k, rest);
      [s[..k]] + rest
  }

  /** One step of the split: the piece before the first cut point, in front
      of the pieces of what follows the run of spaces, keeps every property
      `Sentences` promises. */
  lemma PiecesCons(s: string, k: nat, rest: seq<string>)
    requires 1 <= k < |s| && CutAt(s, k)
    requires forall i :: 1 <= i < k ==> !CutAt(s, i)
    requires |rest| >= 1 && JoinSpaced(rest) == Collapse(SkipSpaces(s[k..]))
    requires forall j :: 0 <= j < |rest| ==> NoCut(rest[j])
    requires forall j :: 0 <= j < |rest| - 1 ==> EndsSentence(rest[j])
    ensures JoinSpaced([s[..k]] + rest) == Collapse(s)
    ensures forall j :: 0 <= j < |[s[..k]] + rest| ==> NoCut(([s[..k]] + rest)[j])
    ensures forall j :: 0 <= j < |[s[..k]] + rest| - 1 ==> EndsSentence(([s[..k]] + rest)[j])
  {
    CollapseUpToCut(s, k);
    JoinSpacedAppend([s[..k]], rest);
    PieceNoCut(s, k);
    NoCutCons(s[..k], rest);
    assert EndsSentence(s[..k]) by { assert s[..k][k - 1] == s[k - 1]; }
    EndsSentenceCons(s[..k], rest);
  }

  lemma NoCutCons(p: string, rest: seq<string>)
    requires NoCut(p)
    requires forall j :: 0 <= j < |rest| ==> NoCut(rest[j])
    ensures forall j :: 0 <= j < |[p] + rest| ==> NoCut(([p] + rest)[j])
  {
    forall j | 1 <= j < |[p] + rest| ensures NoCut(([p] + rest)[j]) {
      assert ([p] + rest)[j] == rest[j - 1];
    }
  }

  /** Putting a piece that ends a sentence in front keeps every piece but
      the last ending one. */
  lemma EndsSentenceCons(p: string, rest: seq<string>)
    requires EndsSentence(p)
    requires forall j :: 0 <= j < |rest| - 1 ==> EndsSentence(rest[j])
    ensures forall j :: 0 <= j < |[p] + rest| - 1 ==> EndsSentence(([p] + rest)[j])
  {
    forall j | 1 <= j < |[p] + rest| - 1 ensures EndsSentence(([p] + rest)[j]) {
      assert ([p] + rest)[j] == rest[j - 1];
    }
  }

  /** The text before the first cut point holds no cut point. */
  lemma PieceNoCut(s: string, k: nat)
    requires k <= |s| && forall i :: 1 <= i < k ==> !CutAt(s, i)
    ensures NoCut(s[..k])
  {
    forall i | 0 <= i < k ensures !CutAt(s[..k], i) {
      assert i > 0 && CutAt(s[..k], i) ==> CutAt(s, i);
    }
  }

  /** Reference definition: `s` with every run of spaces that follows a
      terminator shrunk to a single space. */
  function Collapse(s: string): string
    decreases |s|
  {
    if |s| < 2 then s
    else if IsTerminator(s[0]) && s[1] == ' ' then [s[0], ' '] + Collapse(SkipSpaces(s[1..]))
    else [s[0]] + Collapse(s[1..])
  }

  lemma CutShift(s: string, i: int)
    requires |s| >= 1 && i >= 1
    ensures CutAt(s[1..], i) <==> CutAt(s, i + 1)
  {
  }

  lemma CollapseAtCut(s: string)
    requires CutAt(s, 1)
    ensures Collapse(s) == s[..1] + " " + Collapse(SkipSpaces(s[1..]))
  {
    assert s[..1] == [s[0]];
  }

  lemma CollapseCopy(s: string)
    requires |s| >= 2 && !CutAt(s, 1)
    ensures Collapse(s) == [s[0]] + Collapse(s[1..])
  {
  }

  /** Without a cut point, `Collapse` copies `s`. */
  lemma {:induction false} CollapseNoCut(s: string)
    requires forall i :: 1 <= i < |s| ==> !CutAt(s, i)
    ensures Collapse(s) == s
    decreases |s|
  {
    if |s| >= 2 {
      CollapseCopy(s);
      var t := s[1..];
      forall i | 1 <= i < |t| ensures !CutAt(t, i) {
        CutShift(s, i);
      }
      CollapseNoCut(t);
      assert s == [s[0]] + t;
    }
  }

  lemma PrefixCons(s: string, k: nat)
    requires 1 <= k <= |s|
    ensures s[..k] == [s[0]] + s[1..][..k - 1]
  {
  }

  lemma Regroup(x: string, c: char, p: string, tail: string, q: string)
    requires x == [c] + (p + " " + tail) && q == [c] + p
    ensures x == q + " " + tail
  {
  }

  /** Up to the first cut point `k`, `Collapse` copies `s`; there it writes one
      space and goes on after the run of spaces. */
  lemma {:induction false} CollapseUpToCut(s: string, k: nat)
    requires 1 <= k < |s| && CutAt(s, k)
    requires forall i :: 1 <= i < k ==> !CutAt(s, i)
    ensures Collapse(s) == s[..k] + " " + Collapse(SkipSpaces(s[k..]))
    decreases k
  {
    if k == 1 {
      CollapseAtCut(s);
    } else {
      CollapseCopy(s);
      var t := s[1..];
      forall i | 1 <= i < k - 1 ensures !CutAt(t, i) {
        CutShift(s, i);
      }
      CutShift(s, k - 1);
      CollapseUpToCut(t, k - 1);
      assert t[k - 1..] == s[k..];
      PrefixCons(s, k);
      Regroup(Collapse(s), s[0], t[..k - 1], Collapse(SkipSpaces(s[k..])), s[..k]);
    }
  }

  /** Text that neither starts nor ends with a space, as `strip()` leaves it. */
  predicate Trimmed(s: string) {
    s != [] && s[0] != ' ' && s[|s| - 1] != ' '
  }

  /** The split of a stripped non-empty text has no empty piece. */
  lemma {:induction false} SentencesNonEmpty(s: string)
    requires Trimmed(s)
    ensures forall j :: 0 <= j < |Sentences(s)| ==> Sentences(s)[j] != []
    decreases |s|
  {
    var k := FirstCut(s, 1);
    if k >= |s| {
      assert Sentences(s) == [s];
    } else {
      var u := s[k..];
      var rest := SkipSpaces(u);
      assert u[|u| - 1] == s[|s| - 1];
      assert rest != [];
      assert rest[|rest| - 1] == s[|s| - 1];
      SentencesNonEmpty(rest);
      assert Sentences(s) == [s[..k]] + Sentences(rest);
    }
  }

  /** A character that is not in the text is in no sentence. */
  lemma {:induction false} SentencesChars(s: string, c: char)
    requires c !in s
    ensures forall j :: 0 <= j < |Sentences(s)| ==> c !in Sentences(s)[j]
    decreases |s|
  {
    var k := FirstCut(s, 1);
    if k < |s| {
      var rest := SkipSpaces(s[k..]);
      assert c !in s[..k];
      assert c !in rest by {
        assert forall i :: 0 <= i < |rest| ==> rest[i] == s[|s| - |rest| + i];
      }
      SentencesChars(rest, c);
      assert Sentences(s) == [s[..k]] + Sentences(rest);
    }
  }

  // ---------------------------------------------------------------------
  // Greedy packing of the sentences into chunks
  // ---------------------------------------------------------------------

  /** `text.replace("\n", " ").strip()`. */
  function Normalize(text: string): string {
    Strip(ReplaceNewlines(text))
  }

  /** `if current_chunk: chunks.append(current_chunk.strip())`. */
  function Flush(current: string): seq<string> {
    if current != "" then [Strip(current)] else []
  }

  /** The chunks the loop emits from the remaining sentences `ss` when the
      chunk under construction is `current`, the final flush included. */
  function Pack(ss: seq<string>, current: string, maxLength: int): seq<string>
    decreases |ss|
  {
    if ss == [] then Flush(current)
    else if |current| + |ss[0]| > maxLength then Flush(current) + Pack(ss[1..], ss[0], maxLength)
    else Pack(ss[1..], current + " " + ss[0], maxLength)
  }

  /** Neither end is whitespace, as `strip()` leaves it. */
  predicate Stripped(s: string) {
    s == [] || (!IsSpace(s[0]) && !IsSpace(s[|s| - 1]))
  }

  /** What `chunk_text(text, max_length)` returns. */
  function Chunks(text: string, maxLength: int): seq<string> {
    Pack(Sentences(Normalize(text)), "", maxLength)
  }

  /** No more chunks than sentences, and every chunk is stripped and free of
      newlines. */
  lemma ChunksClean(text: string, maxLength: int)
    ensures |Chunks(text, maxLength)| <= |SentencesOf(text)|
    ensures forall c :: c in Chunks(text, maxLength) ==> Stripped(c) && '\n' !in c
  {
    var normalized := Normalize(text);
    assert '\n' !in ReplaceNewlines(text);
    StripChars(ReplaceNewlines(text), '\n');
    SentencesChars(normalized, '\n');
    PackChars(Sentences(normalized), "", maxLength, '\n');
    PackStripped(Sentences(normalized), "", maxLength);
    PackCount(Sentences(normalized), "", maxLength);
  }

  /** Every chunk `Pack` emits went through `strip()`. */
  lemma {:induction false} PackStripped(ss: seq<string>, current: string, maxLength: int)
    ensures forall c :: c in Pack(ss, current, maxLength) ==> Stripped(c)
    decreases |ss|
  {
    FlushStripped(current);
    if ss == [] {
      assert Pack(ss, current, maxLength) == Flush(current);
    } else if |current| + |ss[0]| > maxLength {
      PackStripped(ss[1..], ss[0], maxLength);
      assert Pack(ss, current, maxLength) == Flush(current) + Pack(ss[1..], ss[0], maxLength);
    } else {
      PackStripped(ss[1..], current + " " + ss[0], maxLength);
      assert Pack(ss, current, maxLength) == Pack(ss[1..], current + " " + ss[0], maxLength);
    }
  }

  lemma FlushStripped(current: string)
    ensures forall c :: c in Flush(current) ==> Stripped(c)
  {
    if current != "" {
      assert Flush(current) == [Strip(current)];
    }
  }

  /** `Pack` emits at most one chunk per sentence, plus one for a non-empty
      buffer. */
  lemma {:induction false} PackCount(ss: seq<string>, current: string, maxLength: int)
    ensures |Pack(ss, current, maxLength)| <= |ss| + (if current == "" then 0 else 1)
    decreases |ss|
  {
    if ss == [] {
      assert Pack(ss, current, maxLength) == Flush(current);
    } else if |current| + |ss[0]| > maxLength {
      PackCount(ss[1..], ss[0], maxLength);
      assert Pack(ss, current, maxLength) == Flush(current) + Pack(ss[1..], ss[0], maxLength);
    } else {
      PackCount(ss[1..], current + " " + ss[0], maxLength);
      assert Pack(ss, current, maxLength) == Pack(ss[1..], current + " " + ss[0], maxLength);
    }
  }

  /** `chunk_text`: the loop over the sentences with its `current_chunk` buffer. */
  method ChunkText(text: string, maxLength: int) returns (chunks: seq<string>)
    ensures chunks == Chunks(text, maxLength)
  {
    var normalized := Strip(ReplaceNewlines(text));
    var sentences := Sentences(normalized);
    ghost var target := Pack(sentences, "", maxLength);
    assert target == Chunks(text, maxLength);
    chunks := [];
    var current := "";
    assert sentences[0..] == sentences;
    for i := 0 to |sentences|
      invariant chunks + Pack(sentences[i..], current, maxLength) == target
    {
      var sentence := sentences[i];
      assert sentences[i..][1..] == sentences[i + 1..];
      if |current| + |sentence| > maxLength {
        LoopFlush(chunks, sentences[i..], current, maxLength);
        if current != "" {
          chunks := chunks + [Strip(current)];
        }
        current := sentence;
      } else {
        LoopExtend(chunks, sentences[i..], current, maxLength);
        current := current + " " + sentence;
      }
    }
    assert sentences[|sentences|..] == [];
    if current != "" {
      chunks := chunks + [Strip(current)];
    }
  }

  /** One turn of the loop in `chunk_text`, with the chunks emitted so far:
      the if-branch flushes `current_chunk`. */
  lemma LoopFlush(chunks: seq<string>, ss: seq<string>, current: string, maxLength: int)
    requires ss != [] && |current| + |ss[0]| > maxLength
    ensures (if current != "" then chunks + [Strip(current)] else chunks) + Pack(ss[1..], ss[0], maxLength)
      == chunks + Pack(ss, current, maxLength)
  {
    PackStep(ss, current, maxLength);
    var rest := Pack(ss[1..], ss[0], maxLength);
    if current != "" {
      assert Flush(current) == [Strip(current)];
      assert (chunks + [Strip(current)]) + rest == chunks + ([Strip(current)] + rest);
    } else {
      assert Flush(current) == [];
      assert [] + rest == rest;
    }
  }

  /** The else-branch extends `current_chunk`. */
  lemma LoopExtend(chunks: seq<string>, ss: seq<string>, current: string, maxLength: int)
    requires ss != [] && |current| + |ss[0]| <= maxLength
    ensures chunks + Pack(ss[1..], current + " " + ss[0], maxLength) == chunks + Pack(ss, current, maxLength)
  {
    PackStep(ss, current, maxLength);
  }

  /** One iteration of the loop, as `Pack` sees it. */
  lemma PackStep(ss: seq<string>, current: string, maxLength: int)
    requires ss != []
    ensures |current| + |ss[0]| > maxLength ==>
      Pack(ss, current, maxLength) == Flush(current) + Pack(ss[1..], ss[0], maxLength)
    ensures |current| + |ss[0]| <= maxLength ==>
      Pack(ss, current, maxLength) == Pack(ss[1..], current + " " + ss[0], maxLength)
  {
  }

  /** The sentence runs behind the chunks: the same decisions as `Pack`, made
      on `len(current_chunk)` alone, collecting the sentences of each chunk
      instead of its text. `run` holds the sentences of the chunk under
      construction and `len` is the length of `current_chunk`. */
  function GroupsFrom(ss: seq<string>, run: seq<string>, len: int, maxLength: int): seq<seq<string>>
    decreases |ss|
  {
    if ss == [] then (if len != 0 then [run] else [])
    else if len + |ss[0]| > maxLength then
      (if len != 0 then [run] else []) + GroupsFrom(ss[1..], [ss[0]], |ss[0]|, maxLength)
    else GroupsFrom(ss[1..], run + [ss[0]], len + 1 + |ss[0]|, maxLength)
  }

  function Groups(ss: seq<string>, maxLength: int): seq<seq<string>> {
    GroupsFrom(ss, [], 0, maxLength)
  }

  /** The text of a chunk with sentence run `g`. */
  function ChunkOf(g: seq<string>): string {
    Strip(JoinSpaced(g))
  }

  /** `f` applied to every element of `xs`, in order. */
  function MapSeq<A, B>(f: A -> B, xs: seq<A>): (r: seq<B>)
    ensures |r| == |xs|
    ensures forall j :: 0 <= j < |xs| ==> r[j] == f(xs[j])
  {
    seq(|xs|, j requires 0 <= j < |xs| => f(xs[j]))
  }

  lemma MapSeqAppend<A, B>(f: A -> B, a: seq<A>, b: seq<A>)
    ensures MapSeq(f, a + b) == MapSeq(f, a) + MapSeq(f, b)
  {
    var r := MapSeq(f, a + b);
    forall j | 0 <= j < |r| ensures r[j] == (MapSeq(f, a) + MapSeq(f, b))[j] {
      if j < |a| {
        assert (a + b)[j] == a[j];
      } else {
        assert (a + b)[j] == b[j - |a|];
      }
    }
  }

  /** The chunk texts of a list of sentence runs. */
  function Render(groups: seq<seq<string>>): (r: seq<string>)
    ensures |r| == |groups|
    ensures forall j :: 0 <= j < |groups| ==> r[j] == ChunkOf(groups[j])
  {
    MapSeq(ChunkOf, groups)
  }

  /** `current_chunk` is `""` before the first sentence and otherwise the
      single-space join of the run, with one leading space when the run was
      started by the else-branch. */
  predicate Buffer(run: seq<string>, current: string) {
    (run == [] && current == "")
    || (run != [] && (current == JoinSpaced(run) || current == " " + JoinSpaced(run)))
  }

  lemma JoinSpacedSnoc(run: seq<string>, s: string)
    requires run != []
    ensures JoinSpaced(run + [s]) == JoinSpaced(run) + " " + s
  {
    assert (run + [s])[..|run|] == run;
  }

  /** The else-branch `current_chunk += " " + sentence` extends the run. */
  lemma BufferGrows(run: seq<string>, current: string, s: string)
    requires Buffer(run, current)
    ensures Buffer(run + [s], current + " " + s)
    ensures |current + " " + s| == |current| + 1 + |s|
  {
    if run == [] {
      assert run + [s] == [s];
      assert current + " " + s == " " + JoinSpaced([s]);
    } else {
      JoinSpacedSnoc(run, s);
      var j := JoinSpaced(run);
      if current == j {
        assert current + " " + s == JoinSpaced(run + [s]);
      } else {
        assert current + " " + s == " " + (j + " " + s);
      }
    }
  }

  lemma FlushBuffer(run: seq<string>, current: string)
    requires Buffer(run, current)
    ensures Flush(current) == Render(if |current| != 0 then [run] else [])
  {
    if current != "" && current != JoinSpaced(run) {
      StripLeadingSpace(JoinSpaced(run));
    }
  }

  /** One step of `GroupsFrom`, in the shape of `PackStep`. */
  lemma GroupsStep(ss: seq<string>, run: seq<string>, len: int, maxLength: int)
    requires ss != []
    ensures len + |ss[0]| > maxLength ==>
      GroupsFrom(ss, run, len, maxLength)
        == (if len != 0 then [run] else []) + GroupsFrom(ss[1..], [ss[0]], |ss[0]|, maxLength)
    ensures len + |ss[0]| <= maxLength ==>
      GroupsFrom(ss, run, len, maxLength) == GroupsFrom(ss[1..], run + [ss[0]], len + 1 + |ss[0]|, maxLength)
  {
  }

  /** The if-branch of `Pack`: the chunk under construction is flushed. */
  lemma PackFlushCase(ss: seq<string>, run: seq<string>, current: string, maxLength: int)
    requires Buffer(run, current) && ss != [] && |current| + |ss[0]| > maxLength
    requires Pack(ss[1..], ss[0], maxLength) == Render(GroupsFrom(ss[1..], [ss[0]], |ss[0]|, maxLength))
    ensures Pack(ss, current, maxLength) == Render(GroupsFrom(ss, run, |current|, maxLength))
  {
    FlushBuffer(run, current);
    PackStep(ss, current, maxLength);
    GroupsStep(ss, run, |current|, maxLength);
    MapSeqAppend(ChunkOf, if |current| != 0 then [run] else [], GroupsFrom(ss[1..], [ss[0]], |ss[0]|, maxLength));
  }

  /** The else-branch of `Pack`: the sentence joins the chunk. */
  lemma PackExtendCase(ss: seq<string>, run: seq<string>, current: string, maxLength: int)
    requires Buffer(run, current) && ss != [] && |current| + |ss[0]| <= maxLength
    requires Pack(ss[1..], current + " " + ss[0], maxLength)
      == Render(GroupsFrom(ss[1..], run + [ss[0]], |current| + 1 + |ss[0]|, maxLength))
    ensures Pack(ss, current, maxLength) == Render(GroupsFrom(ss, run, |current|, maxLength))
  {
    PackStep(ss, current, maxLength);
    GroupsStep(ss, run, |current|, maxLength);
  }

  /** Every chunk is the stripped single-space join of its sentence run. */
  lemma {:induction false} PackRendersGroups(ss: seq<string>, run: seq<string>, current: string, maxLength: int)
    requires Buffer(run, current)
    ensures Pack(ss, current, maxLength) == Render(GroupsFrom(ss, run, |current|, maxLength))
    decreases |ss|
  {
    if ss == [] {
      FlushBuffer(run, current);
    } else if |current| + |ss[0]| > maxLength {
      PackRendersGroups(ss[1..], [ss[0]], ss[0], maxLength);
      PackFlushCase(ss, run, current, maxLength);
    } else {
      BufferGrows(run, current, ss[0]);
      PackRendersGroups(ss[1..], run + [ss[0]], current + " " + ss[0], maxLength);
      PackExtendCase(ss, run, current, maxLength);
    }
  }

  // ---------------------------------------------------------------------
  // The greedy packing, stated on the sentence runs
  // ---------------------------------------------------------------------

  predicate NonEmptyRuns(groups: seq<seq<string>>) {
    forall j :: 0 <= j < |groups| ==> groups[j] != []
  }

  /** Every sentence after the first in run `g` passed the test
      `len(current_chunk) + len(sentence) <= max_length` when it was added;
      `lead` is 1 when `current_chunk` carried a leading space. */
  predicate Packed(g: seq<string>, lead: int, maxLength: int) {
    forall k :: 1 <= k < |g| ==> lead + |JoinSpaced(g[..k])| + |g[k]| <= maxLength
  }

  /** The lead space of run `j`: only the first run can carry one. */
  function LeadAt(j: int, lead: int): int {
    if j == 0 then lead else 0
  }

  predicate AllPacked(groups: seq<seq<string>>, lead: int, maxLength: int) {
    forall j :: 0 <= j < |groups| ==> Packed(groups[j], LeadAt(j, lead), maxLength)
  }

  /** At every chunk boundary the test failed: the first sentence of the next
      run did not fit into the chunk under construction. */
  predicate Boundaries(groups: seq<seq<string>>, lead: int, maxLength: int)
    requires NonEmptyRuns(groups)
  {
    forall j :: 0 <= j < |groups| - 1 ==>
      LeadAt(j, lead) + |JoinSpaced(groups[j])| + |groups[j + 1][0]| > maxLength
  }

  predicate Greedy(groups: seq<seq<string>>, lead: int, maxLength: int) {
    NonEmptyRuns(groups) && AllPacked(groups, lead, maxLength) && Boundaries(groups, lead, maxLength)
  }

  lemma JoinSpacedLast(run: seq<string>)
    requires run != []
    ensures |JoinSpaced(run)| >= |run[|run| - 1]|
  {
  }

  /** Adding a sentence that passed the test keeps the run packed. */
  lemma PackedSnoc(run: seq<string>, s: string, lead: int, maxLength: int)
    requires run != [] && Packed(run, lead, maxLength)
    requires lead + |JoinSpaced(run)| + |s| <= maxLength
    ensures Packed(run + [s], lead, maxLength)
  {
    var g := run + [s];
    forall k | 1 <= k < |g| ensures lead + |JoinSpaced(g[..k])| + |g[k]| <= maxLength {
      if k < |run| {
        assert g[..k] == run[..k];
      } else {
        assert g[..k] == run;
      }
    }
  }

  /** Putting a finished run in front of the runs that follow it. */
  lemma GreedyCons(run: seq<string>, rest: seq<seq<string>>, lead: int, maxLength: int)
    requires run != [] && Packed(run, lead, maxLength)
    requires rest != [] && Greedy(rest, 0, maxLength)
    requires lead + |JoinSpaced(run)| + |rest[0][0]| > maxLength
    ensures Greedy([run] + rest, lead, maxLength)
  {
    var g := [run] + rest;
    assert forall j :: 1 <= j < |g| ==> g[j] == rest[j - 1];
    assert NonEmptyRuns(g);
    forall j | 0 <= j < |g| ensures Packed(g[j], LeadAt(j, lead), maxLength) {
      if j > 0 {
        assert Packed(rest[j - 1], LeadAt(j - 1, 0), maxLength);
      }
    }
    forall j | 0 <= j < |g| - 1
      ensures LeadAt(j, lead) + |JoinSpaced(g[j])| + |g[j + 1][0]| > maxLength
    {
      if j > 0 {
        assert LeadAt(j - 1, 0) + |JoinSpaced(rest[j - 1])| + |rest[j][0]| > maxLength;
      }
    }
  }

  /** What the runs built from run `run` and sentences `ss` satisfy. */
  predicate RunsFrom(groups: seq<seq<string>>, run: seq<string>, ss: seq<string>, lead: int, maxLength: int) {
    groups != [] && |run| <= |groups[0]| && groups[0][..|run|] == run
    && Flatten(groups) == run + ss && Greedy(groups, lead, maxLength)
  }

  lemma RunsFromFlush(run: seq<string>, s: string, ss: seq<string>, rest: seq<seq<string>>, lead: int, maxLength: int)
    requires run != [] && Packed(run, lead, maxLength)
    requires RunsFrom(rest, [s], ss, 0, maxLength)
    requires lead + |JoinSpaced(run)| + |s| > maxLength
    ensures RunsFrom([run] + rest, run, [s] + ss, lead, maxLength)
  {
    var groups := [run] + rest;
    assert rest[0][0] == rest[0][..1][0];
    GreedyCons(run, rest, lead, maxLength);
    assert groups[1..] == rest;
    assert Flatten(groups) == run + Flatten(rest);
  }

  lemma RunsFromExtend(run: seq<string>, s: string, ss: seq<string>, groups: seq<seq<string>>, lead: int, maxLength: int)
    requires RunsFrom(groups, run + [s], ss, lead, maxLength)
    ensures RunsFrom(groups, run, [s] + ss, lead, maxLength)
  {
    assert (run + [s]) + ss == run + ([s] + ss);
    assert groups[0][..|run|] == groups[0][..|run| + 1][..|run|];
    assert (run + [s])[..|run|] == run;
  }

  /** The last run is the run under construction. */
  lemma GreedyLastCase(run: seq<string>, lead: int, maxLength: int)
    requires run != [] && 0 <= lead <= 1 && Packed(run, lead, maxLength)
    requires run[|run| - 1] != ""
    ensures RunsFrom(GroupsFrom([], run, lead + |JoinSpaced(run)|, maxLength), run, [], lead, maxLength)
  {
    JoinSpacedLast(run);
    var groups := GroupsFrom([], run, lead + |JoinSpaced(run)|, maxLength);
    assert groups == [run];
    assert Flatten(groups) == run + Flatten(groups[1..]);
    assert run[..|run|] == run;
  }

  /** The run is finished when the next sentence does not fit. */
  lemma GreedyFlushCase(ss: seq<string>, run: seq<string>, lead: int, maxLength: int)
    requires run != [] && 0 <= lead <= 1 && Packed(run, lead, maxLength)
    requires run[|run| - 1] != ""
    requires ss != [] && lead + |JoinSpaced(run)| + |ss[0]| > maxLength
    requires RunsFrom(GroupsFrom(ss[1..], [ss[0]], |ss[0]|, maxLength), [ss[0]], ss[1..], 0, maxLength)
    ensures RunsFrom(GroupsFrom(ss, run, lead + |JoinSpaced(run)|, maxLength), run, ss, lead, maxLength)
  {
    assert ss == [ss[0]] + ss[1..];
    GroupsStep(ss, run, lead + |JoinSpaced(run)|, maxLength);
    JoinSpacedLast(run);
    RunsFromFlush(run, ss[0], ss[1..], GroupsFrom(ss[1..], [ss[0]], |ss[0]|, maxLength), lead, maxLength);
  }

  /** The run grows by the next sentence when it fits. */
  lemma GreedyExtendCase(ss: seq<string>, run: seq<string>, lead: int, maxLength: int)
    requires run != [] && 0 <= lead <= 1
    requires ss != [] && lead + |JoinSpaced(run)| + |ss[0]| <= maxLength
    requires RunsFrom(GroupsFrom(ss[1..], run + [ss[0]], lead + |JoinSpaced(run + [ss[0]])|, maxLength),
      run + [ss[0]], ss[1..], lead, maxLength)
    ensures RunsFrom(GroupsFrom(ss, run, lead + |JoinSpaced(run)|, maxLength), run, ss, lead, maxLength)
  {
    assert ss == [ss[0]] + ss[1..];
    JoinSpacedSnoc(run, ss[0]);
    GroupsStep(ss, run, lead + |JoinSpaced(run)|, maxLength);
    RunsFromExtend(run, ss[0], ss[1..], GroupsFrom(ss[1..], run + [ss[0]], lead + |JoinSpaced(run + [ss[0]])|, maxLength), lead, maxLength);
  }

  /** The runs `GroupsFrom` builds from a non-empty run under construction:
      they partition the run and the remaining sentences, the first one
      extends the run, and the packing is greedy. */
  lemma {:induction false} GroupsFromGreedy(ss: seq<string>, run: seq<string>, lead: int, maxLength: int)
    requires run != [] && 0 <= lead <= 1 && run[|run| - 1] != ""
    requires forall k :: 0 <= k < |ss| ==> ss[k] != ""
    requires Packed(run, lead, maxLength)
    ensures RunsFrom(GroupsFrom(ss, run, lead + |JoinSpaced(run)|, maxLength), run, ss, lead, maxLength)
    decreases |ss|
  {
    if ss == [] {
      GreedyLastCase(run, lead, maxLength);
    } else if lead + |JoinSpaced(run)| + |ss[0]| > maxLength {
      assert |JoinSpaced([ss[0]])| == |ss[0]|;
      GroupsFromGreedy(ss[1..], [ss[0]], 0, maxLength);
      GreedyFlushCase(ss, run, lead, maxLength);
    } else {
      PackedSnoc(run, ss[0], lead, maxLength);
      GroupsFromGreedy(ss[1..], run + [ss[0]], lead, maxLength);
      GreedyExtendCase(ss, run, lead, maxLength);
    }
  }

  /** The sentences of the normalised text. */
  function SentencesOf(text: string): seq<string> {
    Sentences(Normalize(text))
  }

  /** The sentence runs behind `Chunks(text, maxLength)`. */
  function RunsOf(text: string, maxLength: int): seq<seq<string>> {
    Groups(SentencesOf(text), maxLength)
  }

  /** Whether the first chunk carries the leading space of the else-branch:
      exactly when the first sentence fits. */
  function LeadOf(text: string, maxLength: int): int {
    if |SentencesOf(text)[0]| <= maxLength then 1 else 0
  }

  /** Normalising blanks out exactly the whitespace-only texts. */
  lemma NormalizeBlank(text: string)
    ensures Normalize(text) == "" <==> AllSpace(text)
    ensures Normalize(text) != "" ==> Trimmed(Normalize(text))
  {
    var r := ReplaceNewlines(text);
    assert AllSpace(r) <==> AllSpace(text) by {
      assert forall i :: 0 <= i < |text| ==> (IsSpace(r[i]) <==> IsSpace(text[i]));
    }
  }

  /** `Groups` on a non-empty list of non-empty sentences. */
  lemma GroupsGreedy(ss: seq<string>, maxLength: int)
    requires ss != [] && forall k :: 0 <= k < |ss| ==> ss[k] != ""
    ensures Flatten(Groups(ss, maxLength)) == ss
    ensures Greedy(Groups(ss, maxLength), if |ss[0]| <= maxLength then 1 else 0, maxLength)
  {
    var s := ss[0];
    var lead := if |s| <= maxLength then 1 else 0;
    GroupsStep(ss, [], 0, maxLength);
    assert |JoinSpaced([s])| == |s|;
    var empty: seq<string> := [];
    assert empty + [s] == [s];
    var rest := GroupsFrom(ss[1..], [s], |s|, maxLength);
    var none: seq<seq<string>> := [];
    assert none + rest == rest;
    assert Groups(ss, maxLength) == GroupsFrom(ss[1..], [s], lead + |JoinSpaced([s])|, maxLength);
    GroupsFromGreedy(ss[1..], [s], lead, maxLength);
    assert [s] + ss[1..] == ss;
  }

  /** The main property of `chunk_text`: for a text with something in it, the
      chunks are the stripped single-space joins of runs of consecutive
      sentences; the runs, in order, are exactly the sentences (none is split,
      dropped, repeated or moved); every sentence after the first of a run
      fitted by the source's test, and every chunk boundary is a place where
      the next sentence did not fit. */
  lemma ChunksArePackedRuns(text: string, maxLength: int)
    requires !AllSpace(text)
    ensures Chunks(text, maxLength) == Render(RunsOf(text, maxLength))
    ensures Flatten(RunsOf(text, maxLength)) == SentencesOf(text)
    ensures Greedy(RunsOf(text, maxLength), LeadOf(text, maxLength), maxLength)
  {
    NormalizeBlank(text);
    SentencesNonEmpty(Normalize(text));
    var ss := SentencesOf(text);
    PackRendersGroups(ss, [], "", maxLength);
    GroupsGreedy(ss, maxLength);
  }

  /** A run of two or more sentences that passed the test joins to at most
      `max_length + 1` characters, one fewer with a leading space. */
  lemma PackedRunLength(g: seq<string>, lead: int, maxLength: int)
    requires |g| >= 2 && Packed(g, lead, maxLength)
    ensures |JoinSpaced(g)| <= maxLength + 1 - lead
  {
    var k := |g| - 1;
    assert lead + |JoinSpaced(g[..k])| + |g[k]| <= maxLength;
    assert g[..k] + [g[k]] == g;
    JoinSpacedSnoc(g[..k], g[k]);
  }

  /** A sentence longer than `max_length` is alone in its run. */
  lemma OversizeRunAlone(g: seq<string>, k: nat, lead: int, maxLength: int)
    requires 0 <= lead && Packed(g, lead, maxLength)
    requires k < |g| && |g[k]| > maxLength
    ensures g == [g[k]]
  {
    JoinSpacedFirst(g);
  }

  lemma JoinSpacedFirst(g: seq<string>)
    ensures |g| >= 1 ==> JoinSpaced(g[..1]) == g[0]
  {
    if |g| >= 1 {
      assert g[..1] == [g[0]];
    }
  }

  lemma StripShorter(s: string)
    ensures |Strip(s)| <= |s|
  {
  }

  /** Chunk lengths: a chunk packed from two or more sentences is at most
      `max_length + 1` long, because the joining space is not counted by the
      test; the first chunk is at most `max_length` long when its first
      sentence fitted, as it was measured with its leading space. */
  lemma PackedChunkLength(text: string, maxLength: int)
    requires !AllSpace(text)
    ensures |Chunks(text, maxLength)| == |RunsOf(text, maxLength)| >= 1
    ensures forall j :: 0 <= j < |RunsOf(text, maxLength)| && |RunsOf(text, maxLength)[j]| >= 2 ==>
      |Chunks(text, maxLength)[j]| <= maxLength + 1
    ensures LeadOf(text, maxLength) == 1 ==> |Chunks(text, maxLength)[0]| <= maxLength
  {
    ChunksArePackedRuns(text, maxLength);
    var runs := RunsOf(text, maxLength);
    var lead := LeadOf(text, maxLength);
    assert runs != [] by {
      NormalizeBlank(text);
    }
    forall j | 0 <= j < |runs| && |runs[j]| >= 2
      ensures |Chunks(text, maxLength)[j]| <= maxLength + 1
    {
      assert Packed(runs[j], LeadAt(j, lead), maxLength);
      PackedRunLength(runs[j], LeadAt(j, lead), maxLength);
      StripShorter(JoinSpaced(runs[j]));
    }
    if lead == 1 {
      assert Packed(runs[0], 1, maxLength);
      StripShorter(JoinSpaced(runs[0]));
      if |runs[0]| >= 2 {
        PackedRunLength(runs[0], 1, maxLength);
      } else {
        assert Flatten(runs) == runs[0] + Flatten(runs[1..]);
        assert runs[0] == [SentencesOf(text)[0]];
      }
    }
  }

  /** A sentence longer than `max_length` is emitted whole as a chunk of its
      own, so such a chunk is longer than `max_length`. */
  lemma OversizeSentenceAlone(text: string, maxLength: int)
    requires !AllSpace(text)
    ensures forall j, k ::
      (0 <= j < |RunsOf(text, maxLength)| && 0 <= k < |RunsOf(text, maxLength)[j]|
       && |RunsOf(text, maxLength)[j][k]| > maxLength)
      ==> RunsOf(text, maxLength)[j] == [RunsOf(text, maxLength)[j][k]]
  {
    ChunksArePackedRuns(text, maxLength);
    var runs := RunsOf(text, maxLength);
    var lead := LeadOf(text, maxLength);
    forall j, k | 0 <= j < |runs| && 0 <= k < |runs[j]| && |runs[j][k]| > maxLength
      ensures runs[j] == [runs[j][k]]
    {
      assert Packed(runs[j], LeadAt(j, lead), maxLength);
      OversizeRunAlone(runs[j], k, LeadAt(j, lead), maxLength);
    }
  }

  // ---------------------------------------------------------------------
  // Edge cases, characters and reconstruction
  // ---------------------------------------------------------------------

  /** Blank input: a whitespace-only text yields exactly `[""]` (the lone empty
      sentence goes through the else-branch and `" ".strip()` is flushed), or
      nothing at all when `max_length` is negative. */
  lemma BlankText(text: string, maxLength: int)
    requires AllSpace(text)
    ensures Chunks(text, maxLength) == if maxLength >= 0 then [""] else []
  {
    NormalizeBlank(text);
    var ss := SentencesOf(text);
    SentencesOfEmpty();
    PackStep(ss, "", maxLength);
    assert ss[1..] == [];
    if maxLength >= 0 {
      assert "" + " " + ss[0] == " ";
      StripOneSpace();
    }
  }

  lemma SentencesOfEmpty()
    ensures Sentences("") == [""]
  {
  }

  lemma StripOneSpace()
    ensures Strip(" ") == ""
  {
    assert IsSpace(' ');
    assert TrimStart(" ") == TrimStart("");
  }

  /** The result is empty only for blank text with a negative `max_length`;
      in particular never for the `max_length` of 500 the services pass. */
  lemma ChunksEmptyIff(text: string, maxLength: int)
    ensures Chunks(text, maxLength) == [] <==> AllSpace(text) && maxLength < 0
  {
    if AllSpace(text) {
      BlankText(text, maxLength);
    } else {
      PackedChunkLength(text, maxLength);
    }
  }

  lemma StripChars(s: string, c: char)
    requires c !in s
    ensures c !in Strip(s)
  {
    var t := TrimStart(s);
    var r := TrimEnd(t);
    assert r == s[|s| - |t|..|s| - |t| + |r|];
  }

  lemma {:induction false} PackChars(ss: seq<string>, current: string, maxLength: int, c: char)
    requires c != ' ' && c !in current
    requires forall k :: 0 <= k < |ss| ==> c !in ss[k]
    ensures forall x :: x in Pack(ss, current, maxLength) ==> c !in x
    decreases |ss|
  {
    StripChars(current, c);
    assert forall x :: x in Flush(current) ==> c !in x;
    if ss == [] {
      assert Pack(ss, current, maxLength) == Flush(current);
    } else if |current| + |ss[0]| > maxLength {
      PackChars(ss[1..], ss[0], maxLength, c);
      assert Pack(ss, current, maxLength) == Flush(current) + Pack(ss[1..], ss[0], maxLength);
    } else {
      PackChars(ss[1..], current + " " + ss[0], maxLength, c);
      assert Pack(ss, current, maxLength) == Pack(ss[1..], current + " " + ss[0], maxLength);
    }
  }


  /** Each run's sentences joined by single spaces. */
  function JoinRuns(groups: seq<seq<string>>): seq<string> {
    if groups == [] then [] else [JoinSpaced(groups[0])] + JoinRuns(groups[1..])
  }

  lemma {:induction false} JoinRunsFlatten(groups: seq<seq<string>>)
    requires groups != [] && NonEmptyRuns(groups)
    ensures JoinSpaced(JoinRuns(groups)) == JoinSpaced(Flatten(groups))
    decreases |groups|
  {
    var g := groups[0];
    var rest := groups[1..];
    assert Flatten(groups) == g + Flatten(rest);
    assert JoinRuns(groups) == [JoinSpaced(g)] + JoinRuns(rest);
    if rest == [] {
      assert Flatten(groups) == g;
    } else {
      JoinRunsFlatten(rest);
      assert Flatten(rest) == rest[0] + Flatten(rest[1..]);
      JoinSpacedAppend([JoinSpaced(g)], JoinRuns(rest));
      JoinSpacedAppend(g, Flatten(rest));
    }
  }

  /** Reconstruction: each run's sentences joined by single spaces, and those
      joins joined again by single spaces, give back the normalised text with
      each sentence break shrunk to one space. */
  lemma ChunksReconstruct(text: string, maxLength: int)
    requires !AllSpace(text)
    ensures JoinSpaced(JoinRuns(RunsOf(text, maxLength))) == Collapse(Normalize(text))
  {
    ChunksArePackedRuns(text, maxLength);
    PackedChunkLength(text, maxLength);
    JoinRunsFlatten(RunsOf(text, maxLength));
  }

  /** A worked input, `"abcdefgh. ab. cd."` with `max_length` 6: the oversize
      first sentence is emitted whole, and the two short ones are packed into
      a chunk of `max_length + 1` characters. */
  lemma ChunksExample(text: string)
    requires text == "abcdefgh." + " " + ("ab." + " " + "cd.")
    ensures Chunks(text, 6) == ["abcdefgh.", "ab. cd."]
  {
    ExampleSentencesOf(text);
    ExamplePack();
  }

  lemma ExampleSentencesOf(text: string)
    requires text == "abcdefgh." + " " + ("ab." + " " + "cd.")
    ensures SentencesOf(text) == ["abcdefgh.", "ab.", "cd."]
  {
    ExampleNormal(text);
    ExampleSentences(text);
  }

  lemma ExamplePack()
    ensures Pack(["abcdefgh.", "ab.", "cd."], "", 6) == ["abcdefgh.", "ab. cd."]
  {
    PackThree("abcdefgh.", "ab.", "cd.", 6);
    assert "ab." + " " + "cd." == "ab. cd.";
  }

  /** A last sentence that fits joins the chunk under construction. */
  lemma PackLastFits(y: string, z: string, maxLength: int)
    requires y != "" && !IsSpace(y[0]) && z != "" && !IsSpace(z[|z| - 1]) && |y| + |z| <= maxLength
    ensures Pack([z], y, maxLength) == [y + " " + z]
  {
    PackStep([z], y, maxLength);
    assert [z][1..] == [];
    StripWord(y + " " + z);
  }

  /** An oversize sentence followed by two that fit together. */
  lemma PackThree(x: string, y: string, z: string, maxLength: int)
    requires x != "" && !IsSpace(x[0]) && !IsSpace(x[|x| - 1]) && |x| > maxLength
    requires y != "" && !IsSpace(y[0]) && |x| + |y| > maxLength
    requires z != "" && !IsSpace(z[|z| - 1]) && |y| + |z| <= maxLength
    ensures Pack([x, y, z], "", maxLength) == [x, y + " " + z]
  {
    PackFirstOversize(x, [y, z], maxLength);
    PackFlushWord(x, y, [z], maxLength);
    PackLastFits(y, z, maxLength);
  }

  /** An oversize first sentence starts the first chunk. */
  lemma PackFirstOversize(x: string, rest: seq<string>, maxLength: int)
    requires |x| > maxLength
    ensures Pack([x] + rest, "", maxLength) == Pack(rest, x, maxLength)
  {
    PackStep([x] + rest, "", maxLength);
    assert ([x] + rest)[1..] == rest;
    assert Flush("") == [];
  }

  /** A sentence that does not fit flushes a chunk that needs no stripping. */
  lemma PackFlushWord(x: string, y: string, rest: seq<string>, maxLength: int)
    requires x != "" && !IsSpace(x[0]) && !IsSpace(x[|x| - 1]) && |x| + |y| > maxLength
    ensures Pack([y] + rest, x, maxLength) == [x] + Pack(rest, y, maxLength)
  {
    PackStep([y] + rest, x, maxLength);
    assert ([y] + rest)[1..] == rest;
    StripWord(x);
    assert Flush(x) == [x];
  }

  lemma ExampleNormal(text: string)
    requires text == "abcdefgh." + " " + ("ab." + " " + "cd.")
    ensures Normalize(text) == text
  {
    assert ReplaceNewlines(text) == text;
    StripWord(text);
  }

  lemma ExampleSentences(text: string)
    requires text == "abcdefgh." + " " + ("ab." + " " + "cd.")
    ensures Sentences(text) == ["abcdefgh.", "ab.", "cd."]
  {
    SentencesThree("abcdefgh.", "ab.", "cd.");
  }

  /** Two space-free sentences, the first ending in a terminator, joined by
      a single space split back into those two. */
  lemma SentencesTwo(y: string, z: string)
    requires y != "" && z != "" && ' ' !in y && ' ' !in z
    requires IsTerminator(y[|y| - 1])
    ensures Sentences(y + " " + z) == [y, z]
  {
    NoSpaceNoCut(y);
    NoSpaceNoCut(z);
    assert z[0] != ' ' by { assert z[0] in z; }
    SentencesSingle(z);
    SentencesCons(y, z);
  }

  /** The same for three sentences. */
  lemma SentencesThree(x: string, y: string, z: string)
    requires x != "" && y != "" && z != ""
    requires ' ' !in x && ' ' !in y && ' ' !in z
    requires IsTerminator(x[|x| - 1]) && IsTerminator(y[|y| - 1])
    ensures Sentences(x + " " + (y + " " + z)) == [x, y, z]
  {
    NoSpaceNoCut(x);
    assert y[0] != ' ' by { assert y[0] in y; }
    var yz := y + " " + z;
    assert yz[0] == y[0];
    SentencesTwo(y, z);
    SentencesCons(x, yz);
  }

  /** `strip()` leaves a string alone whose ends are not whitespace. */
  lemma StripWord(s: string)
    requires s != [] && !IsSpace(s[0]) && !IsSpace(s[|s| - 1])
    ensures Strip(s) == s
  {
  }

  /** A string without spaces has no cut point. */
  lemma NoSpaceNoCut(s: string)
    requires ' ' !in s
    ensures NoCut(s)
  {
  }

  /** A text without a cut point is one sentence. */
  lemma SentencesSingle(s: string)
    requires NoCut(s)
    ensures Sentences(s) == [s]
  {
  }

  /** Splitting undoes joining: a sentence ending in `.`, `!` or `?` without
      an inner cut, one space, then text that does not start with a space,
      splits into that sentence followed by the sentences of the rest. */
  lemma SentencesCons(x: string, y: string)
    requires x != "" && IsTerminator(x[|x| - 1]) && NoCut(x)
    requires y != "" && y[0] != ' '
    ensures Sentences(x + " " + y) == [x] + Sentences(y)
  {
    var s := x + " " + y;
    forall i | 1 <= i < |x|
      ensures !CutAt(s, i)
    {
      assert s[i - 1] == x[i - 1] && s[i] == x[i];
      assert !CutAt(x, i);
    }
    assert CutAt(s, |x|);
    FirstCutFrom(s, 1, |x|);
    assert s[..|x|] == x;
    assert s[|x|..] == " " + y;
    SkipOneSpace(y);
  }

  lemma SkipOneSpace(t: string)
    requires t != [] && t[0] != ' '
    ensures SkipSpaces(" " + t) == t
  {
    assert (" " + t)[1..] == t;
  }

  /** `FirstCut` from `from` lands on the first cut at or after it. */
  lemma {:induction false} FirstCutFrom(s: string, from: nat, k: nat)
    requires from <= k <= |s|
    requires k == |s| || CutAt(s, k)
    requires forall i :: from <= i < k ==> !CutAt(s, i)
    ensures FirstCut(s, from) == k
    decreases k - from
  {
    if from < k {
      FirstCutFrom(s, from + 1, k);
    }
  }
}
