/**
 Word statistics (src/core/indexer.rs): counts are buffered and flushed to the index whenever
 the buffer holds enough words, and the totals do not depend on when that is.
 */
module Words {
  import opened Basics
  import opened Order
  import opened Hex

  const MIN_WORD_CHARS := 3
  const MAX_WORD_CHARS := 32

  // A run of alphanumeric characters: its UTF-8 length, its character count, its lowercase form.
  datatype Token = Token(bytes: nat, chars: nat, lower: Word)

  datatype Word = Word(text: Text)

  // How often a word occurs, and in how many documents.
  datatype Count = Count(total: int, docs: int)

  type Counts = map<Word, Count>

  type Document = seq<Token>

  // A processed entry, with its text where that was extracted, and what the run keeps.
  datatype Outcome = Outcome(kind: string, text: Option<Document>)

  datatype Options = Options(wordStats: bool, full: bool)

  // Only text entries are counted, and only in full mode with word statistics on.
  predicate Gated(opts: Options, entry: Option<Outcome>) {
    entry.Some? && entry.value.kind == "text" && opts.wordStats && opts.full && entry.value.text.Some?
  }

  function Contribution(opts: Options, entry: Option<Outcome>): Document {
    if Gated(opts, entry) then entry.value.text.value else []
  }

  // Exactly the texts of a full run with word statistics on count, as they are.
  lemma CountsWhen(opts: Options, entry: Option<Outcome>, doc: Document)
    requires doc != []
    ensures Contribution(opts, entry) == doc <==>
              opts.wordStats && opts.full && entry.Some? && entry.value.kind == "text" && entry.value.text == Some(doc)
  {
  }

  function Contributions(opts: Options, entries: seq<Option<Outcome>>): (docs: seq<Document>)
    ensures |docs| == |entries|
  {
    seq(|entries|, i requires 0 <= i < |entries| => Contribution(opts, entries[i]))
  }

  predicate Counted(t: Token) {
    MIN_WORD_CHARS <= t.bytes <= MAX_WORD_CHARS * 4 && MIN_WORD_CHARS <= t.chars <= MAX_WORD_CHARS
  }

  // UTF-8 spends one to four bytes on a character, so the byte check never decides.
  lemma CharsDecide(t: Token)
    requires t.chars <= t.bytes <= 4 * t.chars
    ensures Counted(t) <==> 3 <= t.chars <= 32
  {
  }

  function Occurrences(doc: Document, word: Word): nat {
    if doc == [] then 0
    else Occurrences(doc[..|doc| - 1], word) + if Counted(doc[|doc| - 1]) && doc[|doc| - 1].lower == word then 1 else 0
  }

  function At(counts: Counts, word: Word): Count {
    if word in counts then counts[word] else Count(0, 0)
  }

  function Plus(a: Count, b: Count): Count {
    Count(a.total + b.total, a.docs + b.docs)
  }

  function InDocument(doc: Document, word: Word): Count {
    var n := Occurrences(doc, word);
    Count(n, if n > 0 then 1 else 0)
  }

  function Add(counts: Counts, word: Word, more: Count): Counts {
    counts[word := Plus(At(counts, word), more)]
  }

  lemma AddAt(counts: Counts, word: Word, more: Count, w: Word)
    ensures At(Add(counts, word, more), w) == if w == word then Plus(At(counts, word), more) else At(counts, w)
  {
  }

  lemma DropAt(counts: Counts, word: Word, w: Word)
    ensures At(counts - {word}, w) == if w == word then Count(0, 0) else At(counts, w)
  {
  }

  lemma PlusLaws(a: Count, b: Count, c: Count)
    ensures Plus(Plus(a, b), c) == Plus(Plus(a, c), b) && Plus(a, Count(0, 0)) == a && Plus(Count(0, 0), a) == a
  {
  }

  lemma PlusCommutes(a: Count, b: Count)
    ensures Plus(a, b) == Plus(b, a)
  {
  }

  // The one-shot totals.
  function InAll(docs: seq<Document>, word: Word): Count {
    if docs == [] then Count(0, 0) else Plus(InAll(docs[..|docs| - 1], word), InDocument(docs[|docs| - 1], word))
  }

  method CountDocument(doc: Document) returns (counts: map<Word, nat>)
    ensures forall w :: (w in counts <==> Occurrences(doc, w) > 0) && (w in counts ==> counts[w] == Occurrences(doc, w))
  {
    counts := map[];
    assert doc[..0] == [];
    for i := 0 to |doc|
      invariant forall w :: w in counts <==> Occurrences(doc[..i], w) > 0
      invariant forall w :: w in counts ==> counts[w] == Occurrences(doc[..i], w)
    {
      assert doc[..i + 1][..i] == doc[..i];
      var t := doc[i];
      if Counted(t) {
        counts := counts[t.lower := (if t.lower in counts then counts[t.lower] else 0) + 1];
      }
    }
    assert doc[..|doc|] == doc;
  }

  class Statistics {
    var buffered: Counts
    var stored: Counts

    constructor ()
      ensures buffered == map[] && stored == map[]
    {
      buffered, stored := map[], map[];
    }

    method Accumulate(doc: Document)
      modifies this`buffered
      ensures Grown(old(buffered), buffered, doc)
    {
      var counts := CountDocument(doc);
      ghost var before := buffered;
      var left := counts.Keys;
      hide Merged;
      MergeStart(before, counts);
      while left != {}
        invariant left <= counts.Keys && Merged(before, buffered, counts, left)
      {
        var word :| word in left;
        MergeStep(before, buffered, counts, left, word);
        buffered := Add(buffered, word, Count(counts[word], 1));
        left := left - {word};
      }
      MergeEnd(before, buffered, counts, doc);
    }

    // The upsert adds to what is stored; the buffer is drained.
    method Flush()
      modifies this`buffered, this`stored
      ensures buffered == map[] && Moved(old(buffered), old(stored), map[], stored)
    {
      ghost var buffer, index := buffered, stored;
      hide Moved, At, Plus;
      assert Moved(buffer, index, buffered, stored) by { MovedNothing(buffer, index); }
      while buffered != map[]
        invariant Moved(buffer, index, buffered, stored)
        decreases |buffered|
      {
        var word :| word in buffered.Keys;
        MoveStep(buffer, index, buffered, stored, word);
        stored := Add(stored, word, buffered[word]);
        buffered := buffered - {word};
      }
    }

    method Record(opts: Options, entry: Option<Outcome>, threshold: nat)
      modifies this`buffered, this`stored
      ensures Recorded(old(buffered), old(stored), buffered, stored, Contribution(opts, entry))
      ensures !Gated(opts, entry) ==> buffered == old(buffered) && stored == old(stored)
    {
      hide Grown, Moved, Recorded;
      ghost var buffer, index := buffered, stored;
      if entry.Some? && entry.value.kind == "text" && opts.wordStats && opts.full && entry.value.text.Some? {
        var doc := entry.value.text.value;
        Accumulate(doc);
        ghost var grown := buffered;
        RecordedBuffered(buffer, index, grown, doc);
        if |buffered| >= threshold {
          Flush();
          RecordedFlushed(buffer, index, grown, doc, stored);
        }
      } else {
        RecordedNothing(buffer, index);
      }
    }
  }

  // What buffer and index hold together.
  ghost function Total(buffered: Counts, stored: Counts, word: Word): Count {
    Plus(At(buffered, word), At(stored, word))
  }

  // The document's counts are added.
  ghost predicate Grown(before: Counts, after: Counts, doc: Document) {
    forall w :: At(after, w) == Plus(At(before, w), InDocument(doc, w))
  }

  ghost predicate Recorded(buffer: Counts, index: Counts, buffer': Counts, index': Counts, doc: Document) {
    forall w :: Total(buffer', index', w) == Plus(Total(buffer, index, w), InDocument(doc, w))
  }

  // Buffer and index hold together what they held before.
  ghost predicate Moved(buffer: Counts, index: Counts, buffer': Counts, index': Counts) {
    forall w :: Total(buffer', index', w) == Total(buffer, index, w)
  }

  ghost predicate Merged(before: Counts, now: Counts, counts: map<Word, nat>, left: set<Word>) {
    forall w :: At(now, w) == Plus(At(before, w), Part(counts, left, w))
  }

  function Part(counts: map<Word, nat>, left: set<Word>, word: Word): Count {
    if word in counts && word !in left then Count(counts[word], 1) else Count(0, 0)
  }

  lemma MergeStart(before: Counts, counts: map<Word, nat>)
    ensures Merged(before, before, counts, counts.Keys)
  {
  }

  lemma MergedAt(before: Counts, now: Counts, counts: map<Word, nat>, left: set<Word>, w: Word)
    requires Merged(before, now, counts, left)
    ensures At(now, w) == Plus(At(before, w), Part(counts, left, w))
  {
  }

  lemma MergeStepAt(before: Counts, now: Counts, counts: map<Word, nat>, left: set<Word>, word: Word, w: Word)
    requires word in left && left <= counts.Keys
    requires At(now, w) == Plus(At(before, w), Part(counts, left, w))
    requires At(now, word) == Plus(At(before, word), Part(counts, left, word))
    ensures At(Add(now, word, Count(counts[word], 1)), w) == Plus(At(before, w), Part(counts, left - {word}, w))
  {
    hide Add, At, Plus;
    AddAt(now, word, Count(counts[word], 1), w);
    PlusLaws(At(before, w), Count(0, 0), Count(0, 0));
  }

  lemma MergeStep(before: Counts, now: Counts, counts: map<Word, nat>, left: set<Word>, word: Word)
    requires word in left && left <= counts.Keys && Merged(before, now, counts, left)
    ensures Merged(before, Add(now, word, Count(counts[word], 1)), counts, left - {word})
  {
    hide Add, At, Plus, Part;
    var next := Add(now, word, Count(counts[word], 1));
    forall w: Word ensures At(next, w) == Plus(At(before, w), Part(counts, left - {word}, w)) {
      MergedAt(before, now, counts, left, w);
      MergedAt(before, now, counts, left, word);
      MergeStepAt(before, now, counts, left, word, w);
    }
  }

  lemma PartIsDocument(counts: map<Word, nat>, doc: Document, w: Word)
    requires (w in counts <==> Occurrences(doc, w) > 0) && (w in counts ==> counts[w] == Occurrences(doc, w))
    ensures Part(counts, {}, w) == InDocument(doc, w)
  {
  }

  lemma MergeEnd(before: Counts, now: Counts, counts: map<Word, nat>, doc: Document)
    requires Merged(before, now, counts, {})
    requires forall w :: (w in counts <==> Occurrences(doc, w) > 0) && (w in counts ==> counts[w] == Occurrences(doc, w))
    ensures Grown(before, now, doc)
  {
    hide At, Plus, Part, InDocument, Occurrences, Merged;
    forall w: Word ensures At(now, w) == Plus(At(before, w), InDocument(doc, w)) {
      MergedAt(before, now, counts, {}, w);
      PartIsDocument(counts, doc, w);
    }
  }

  lemma MovedNothing(buffer: Counts, index: Counts)
    ensures Moved(buffer, index, buffer, index)
  {
  }

  lemma MovedAt(buffer: Counts, index: Counts, buffered: Counts, stored: Counts, w: Word)
    requires Moved(buffer, index, buffered, stored)
    ensures Total(buffered, stored, w) == Total(buffer, index, w)
  {
  }

  lemma MoveStepAt(buffered: Counts, stored: Counts, word: Word, w: Word)
    requires word in buffered
    ensures Total(buffered - {word}, Add(stored, word, buffered[word]), w) == Total(buffered, stored, w)
  {
    assert buffered[word] == At(buffered, word);
    hide Add, At, Plus;
    AddAt(stored, word, buffered[word], w);
    DropAt(buffered, word, w);
    PlusCommutes(At(stored, w), At(buffered, w));
    PlusLaws(Plus(At(stored, w), At(buffered, w)), Count(0, 0), Count(0, 0));
  }

  lemma MoveStep(buffer: Counts, index: Counts, buffered: Counts, stored: Counts, word: Word)
    requires word in buffered && Moved(buffer, index, buffered, stored)
    ensures Moved(buffer, index, buffered - {word}, Add(stored, word, buffered[word]))
  {
    hide Add, At, Plus, Total;
    forall w: Word ensures Total(buffered - {word}, Add(stored, word, buffered[word]), w) == Total(buffer, index, w) {
      MovedAt(buffer, index, buffered, stored, w);
      MoveStepAt(buffered, stored, word, w);
    }
  }

  lemma GrownAt(before: Counts, after: Counts, doc: Document, w: Word)
    requires Grown(before, after, doc)
    ensures At(after, w) == Plus(At(before, w), InDocument(doc, w))
  {
  }

  lemma RecordedBuffered(buffer: Counts, index: Counts, grown: Counts, doc: Document)
    requires Grown(buffer, grown, doc)
    ensures Recorded(buffer, index, grown, index, doc)
  {
    forall w: Word ensures Total(grown, index, w) == Plus(Total(buffer, index, w), InDocument(doc, w)) {
      hide Grown, At, InDocument, Plus;
      GrownAt(buffer, grown, doc, w);
      PlusLaws(At(buffer, w), InDocument(doc, w), At(index, w));
    }
    hide Total, Plus, At, Grown, InDocument;
  }

  lemma RecordedFlushed(buffer: Counts, index: Counts, grown: Counts, doc: Document, stored: Counts)
    requires Recorded(buffer, index, grown, index, doc) && Moved(grown, index, map[], stored)
    ensures Recorded(buffer, index, map[], stored, doc)
  {
    forall w ensures Total(map[], stored, w) == Plus(Total(buffer, index, w), InDocument(doc, w)) {
      assert Total(map[], stored, w) == Total(grown, index, w);
      assert Total(grown, index, w) == Plus(Total(buffer, index, w), InDocument(doc, w));
    }
  }

  lemma RecordedNothing(buffer: Counts, index: Counts)
    ensures Recorded(buffer, index, buffer, index, [])
  {
  }

  ghost predicate HoldsAll(buffered: Counts, stored: Counts, docs: seq<Document>) {
    forall w :: Total(buffered, stored, w) == InAll(docs, w)
  }

  lemma RecordedAt(buffer: Counts, index: Counts, buffer': Counts, index': Counts, doc: Document, w: Word)
    requires Recorded(buffer, index, buffer', index', doc)
    ensures Total(buffer', index', w) == Plus(Total(buffer, index, w), InDocument(doc, w))
  {
  }

  lemma InAllNext(docs: seq<Document>, i: nat, w: Word)
    requires i < |docs|
    ensures InAll(docs[..i + 1], w) == Plus(InAll(docs[..i], w), InDocument(docs[i], w))
  {
    assert docs[..i + 1][..i] == docs[..i];
    hide Plus, InDocument;
  }

  lemma HoldsNext(buffer: Counts, index: Counts, buffer': Counts, index': Counts, docs: seq<Document>, i: nat)
    requires i < |docs| && HoldsAll(buffer, index, docs[..i]) && Recorded(buffer, index, buffer', index', docs[i])
    ensures HoldsAll(buffer', index', docs[..i + 1])
  {
    hide Total, Plus, InDocument, Recorded, InAll;
    forall w: Word ensures Total(buffer', index', w) == InAll(docs[..i + 1], w) {
      RecordedAt(buffer, index, buffer', index', docs[i], w);
      HoldsAt(buffer, index, docs[..i], w);
      InAllNext(docs, i, w);
    }
  }

  lemma HoldsAt(buffered: Counts, stored: Counts, docs: seq<Document>, w: Word)
    requires HoldsAll(buffered, stored, docs)
    ensures Total(buffered, stored, w) == InAll(docs, w)
  {
  }

  lemma HoldsFlushed(buffer: Counts, index: Counts, stored: Counts, docs: seq<Document>)
    requires HoldsAll(buffer, index, docs) && Moved(buffer, index, map[], stored)
    ensures forall w :: At(stored, w) == InAll(docs, w)
  {
    hide HoldsAll, Moved, InAll;
    forall w: Word ensures At(stored, w) == InAll(docs, w) {
      HoldsAt(buffer, index, docs, w);
      MovedAt(buffer, index, map[], stored, w);
      PlusLaws(At(stored, w), Count(0, 0), Count(0, 0));
      hide Plus;
    }
  }

  // Every entry recorded, then flushed: the index holds the one-shot totals of what counts,
  // whatever the threshold.
  method IndexWords(opts: Options, entries: seq<Option<Outcome>>, threshold: nat) returns (stored: Counts)
    ensures forall w :: At(stored, w) == InAll(Contributions(opts, entries), w)
  {
    var stats := new Statistics();
    ghost var docs := Contributions(opts, entries);
    assert docs[..0] == [];
    for i := 0 to |entries|
      invariant HoldsAll(stats.buffered, stats.stored, docs[..i])
    {
      hide HoldsAll, Recorded;
      ghost var buffer, index := stats.buffered, stats.stored;
      stats.Record(opts, entries[i], threshold);
      HoldsNext(buffer, index, stats.buffered, stats.stored, docs, i);
    }
    assert docs[..|entries|] == docs;
    hide HoldsAll, Moved;
    ghost var buffer, index := stats.buffered, stats.stored;
    stats.Flush();
    HoldsFlushed(buffer, index, stats.stored, docs);
    return stats.stored;
  }
}
