/**
 * The write pipeline as values: the synchronous part of `enque`, the
 * queue element a call leaves behind, and what the background worker does
 * with one element (one batch of work items under one lock pass),
 * including the fixed-size full-text chunking of converted content.
 */
module Pipeline {
  import opened Wrappers
  import opened Documents

  /** `fp.read(2048)`: the size of one full-text chunk. */
  const CHUNK_SIZE: nat := 2048

  /** The field name the converted text is indexed under. */
  const FULLTEXT: string := "fulltext"

  // ---------------------------------------------------------------------
  // Full-text chunks

  /**
   * The chunks successive `read(2048)` calls return until the first empty
   * read: every chunk is non-empty and at most 2048 long, and all but the
   * last are exactly 2048 long.
   */
  function Chunks(text: string): (r: seq<string>)
    ensures forall i :: 0 <= i < |r| ==> 0 < |r[i]| <= CHUNK_SIZE
    ensures forall i :: 0 <= i < |r| - 1 ==> |r[i]| == CHUNK_SIZE
    ensures text == [] <==> r == []
    decreases |text|
  {
    if text == [] then []
    else if |text| <= CHUNK_SIZE then [text]
    else [text[..CHUNK_SIZE]] + Chunks(text[CHUNK_SIZE..])
  }

  function Concat(cs: seq<string>): string {
    if cs == [] then [] else cs[0] + Concat(cs[1..])
  }

  /** The chunks put back together give the converter's output. */
  lemma {:induction false} ChunksRoundTrip(text: string)
    ensures Concat(Chunks(text)) == text
    decreases |text|
  {
    if |text| > CHUNK_SIZE {
      ChunksRoundTrip(text[CHUNK_SIZE..]);
      assert text == text[..CHUNK_SIZE] + text[CHUNK_SIZE..];
    }
  }

  /** There are as many chunks as 2048-character blocks, counting a partial last one. */
  lemma {:induction false} ChunkCount(text: string)
    ensures |Chunks(text)| == (|text| + CHUNK_SIZE - 1) / CHUNK_SIZE
    decreases |text|
  {
    if |text| > CHUNK_SIZE {
      ChunkCount(text[CHUNK_SIZE..]);
    }
  }

  /** The `fulltext` fields appended to a document for the converted text. */
  function FulltextOf(text: string): (fs: seq<Field>) {
    var cs := Chunks(text);
    seq(|cs|, i requires 0 <= i < |cs| => Field(FULLTEXT, cs[i]))
  }

  /** One more read: a non-empty text gives its first chunk, then the fields for the rest. */
  lemma FulltextUnfold(text: string)
    requires text != []
    ensures var k := if |text| <= CHUNK_SIZE then |text| else CHUNK_SIZE;
            FulltextOf(text) == [Field(FULLTEXT, text[..k])] + FulltextOf(text[k..])
  {
    if |text| <= CHUNK_SIZE {
      assert text[..|text|] == text;
      assert text[|text|..] == [];
    }
  }

  /**
   * The reading loop of the worker: reads 2048 characters at a time from
   * the converted stream and appends a `fulltext` field per chunk, stopping
   * at the first empty read.
   */
  method ReadFulltext(text: string) returns (fs: seq<Field>)
    ensures fs == FulltextOf(text)
  {
    fs := [];
    var pos := 0;
    while true
      invariant pos <= |text|
      invariant fs + FulltextOf(text[pos..]) == FulltextOf(text)
      decreases |text| - pos
    {
      var k := if |text| - pos <= CHUNK_SIZE then |text| - pos else CHUNK_SIZE;
      var chunk := text[pos..pos + k];
      if chunk == [] {
        break;
      }
      FulltextUnfold(text[pos..]);
      assert text[pos..][..k] == chunk;
      assert text[pos..][k..] == text[pos + k..];
      fs := fs + [Field(FULLTEXT, chunk)];
      pos := pos + k;
    }
    assert text[pos..] == [];
  }

  /** The values of a field list, in order. */
  function Values(fs: seq<Field>): seq<string> {
    seq(|fs|, i requires 0 <= i < |fs| => fs[i].value)
  }

  /** The appended fields are all `fulltext` fields, and their values concatenate to the converted text. */
  lemma FulltextRoundTrip(text: string)
    ensures forall i :: 0 <= i < |FulltextOf(text)| ==> FulltextOf(text)[i].name == FULLTEXT
    ensures Concat(Values(FulltextOf(text))) == text
  {
    assert Values(FulltextOf(text)) == Chunks(text);
    ChunksRoundTrip(text);
  }

  // ---------------------------------------------------------------------
  // The worker

  /** What the worker writes: the engine's documents, and the source files removed so far. */
  datatype Store = Store(docs: Index, unlinked: seq<string>)

  /** Applying one work item either succeeds with a new store or raises. */
  datatype ItemOutcome = Applied(after: Store) | Raised

  /** The converter: the plain text a file converts to, or None when conversion fails. */
  type Converter = FileStuff -> Option<string>

  /**
   * One work item of a batch. DELETE removes the document stored under the
   * uid. UPDATE unpacks the file information (raising when there is none),
   * converts the file; on a failed conversion nothing changes; otherwise
   * the converted text's chunks are appended as `fulltext` fields and the
   * document is replaced (raising when there is no document), and a
   * versioned store that does not keep files in place has the source file
   * removed. Any other operation is only logged.
   */
  function ApplyItem(s: Store, item: WorkItem, versions: bool, inplace: bool, convert: Converter): (r: ItemOutcome)
    ensures r.Raised? <==> item.op == Update && (item.file.None? || (convert(item.file.value).Some? && item.doc.None?))
    ensures item.op == Delete ==> r == Applied(s.(docs := s.docs - {item.uid}))
    ensures item.op == Create ==> r == Applied(s)
    ensures r.Applied? && item.op == Update && convert(item.file.value).Some? ==>
              var d := item.doc.value;
              && r.after.docs == s.docs[d.id := d.(fields := d.fields + FulltextOf(convert(item.file.value).value))]
              && r.after.unlinked == s.unlinked + (if versions && !inplace then [item.file.value.filename] else [])
    ensures r.Applied? && item.op == Update && convert(item.file.value).None? ==> r.after == s
  {
    match item.op
    case Delete => Applied(s.(docs := s.docs - {item.uid}))
    case Create => Applied(s)
    case Update =>
      if item.file.None? then Raised
      else
        var f := item.file.value;
        match convert(f)
        case None => Applied(s)
        case Some(text) =>
          if item.doc.None? then Raised
          else
            var d := item.doc.value;
            var d' := d.(fields := d.fields + FulltextOf(text));
            Applied(Store(s.docs[d.id := d'], if versions && !inplace then s.unlinked + [f.filename] else s.unlinked))
  }

  /** The result of a batch: the store afterwards, and whether every item was applied. */
  datatype BatchOutcome = BatchOutcome(after: Store, completed: bool)

  /**
   * The items of a batch applied in order under one lock pass; the first
   * item that raises ends the batch, and what earlier items wrote stays.
   */
  function RunBatch(s: Store, items: seq<WorkItem>, versions: bool, inplace: bool, convert: Converter): (r: BatchOutcome)
    decreases |items|
  {
    if items == [] then BatchOutcome(s, true)
    else match ApplyItem(s, items[0], versions, inplace, convert)
      case Raised => BatchOutcome(s, false)
      case Applied(s') => RunBatch(s', items[1..], versions, inplace, convert)
  }

  /** A batch is completed exactly when no item raises on the store the earlier items left. */
  lemma {:induction false} RunBatchCompleted(s: Store, items: seq<WorkItem>, versions: bool, inplace: bool, convert: Converter)
    ensures RunBatch(s, items, versions, inplace, convert).completed
            <==> forall i :: 0 <= i < |items| ==>
                   ApplyItem(RunBatch(s, items[..i], versions, inplace, convert).after, items[i], versions, inplace, convert).Applied?
    decreases |items|
  {
    if items != [] {
      var o := ApplyItem(s, items[0], versions, inplace, convert);
      assert RunBatch(s, items[..0], versions, inplace, convert).after == s by {
        assert items[..0] == [];
      }
      if o.Applied? {
        var rest := items[1..];
        RunBatchCompleted(o.after, rest, versions, inplace, convert);
        forall i | 1 <= i < |items|
          ensures RunBatch(s, items[..i], versions, inplace, convert).after
               == RunBatch(o.after, rest[..i - 1], versions, inplace, convert).after
        {
          assert items[..i][0] == items[0];
          assert items[..i][1..] == rest[..i - 1];
        }
        if RunBatch(s, items, versions, inplace, convert).completed {
          forall i | 0 <= i < |items|
            ensures ApplyItem(RunBatch(s, items[..i], versions, inplace, convert).after, items[i], versions, inplace, convert).Applied?
          {
            if i > 0 {
              assert items[i] == rest[i - 1];
            }
          }
        } else {
          var j :| 0 <= j < |rest| &&
                   ApplyItem(RunBatch(o.after, rest[..j], versions, inplace, convert).after, rest[j], versions, inplace, convert).Raised?;
          assert items[j + 1] == rest[j];
        }
      }
    }
  }

  /** Running two batches' items in one batch is running the first and, if it completed, the second after it. */
  lemma {:induction false} RunBatchAppend(s: Store, a: seq<WorkItem>, b: seq<WorkItem>, versions: bool, inplace: bool, convert: Converter)
    ensures var ra := RunBatch(s, a, versions, inplace, convert);
            RunBatch(s, a + b, versions, inplace, convert)
            == if ra.completed then RunBatch(ra.after, b, versions, inplace, convert) else ra
    decreases |a|
  {
    if a == [] {
      assert a + b == b;
    } else {
      assert (a + b)[0] == a[0];
      assert (a + b)[1..] == a[1..] + b;
      match ApplyItem(s, a[0], versions, inplace, convert)
      case Raised =>
      case Applied(s') => RunBatchAppend(s', a[1..], b, versions, inplace, convert);
    }
  }

  /** The key a work item writes: the uid for a delete, the document's identity for an update. */
  predicate Touches(item: WorkItem, id: string) {
    if item.op == Delete then id == item.uid else item.doc.Some? && item.doc.value.id == id
  }

  /** A batch leaves every document no item of it names as it was. */
  lemma {:induction false} RunBatchFrame(s: Store, items: seq<WorkItem>, versions: bool, inplace: bool, convert: Converter, id: string)
    requires forall i :: 0 <= i < |items| ==> !Touches(items[i], id)
    ensures var after := RunBatch(s, items, versions, inplace, convert).after.docs;
            (id in after <==> id in s.docs) && (id in s.docs ==> after[id] == s.docs[id])
    decreases |items|
  {
    if items != [] {
      match ApplyItem(s, items[0], versions, inplace, convert)
      case Raised =>
      case Applied(s') =>
        assert !Touches(items[0], id);
        RunBatchFrame(s', items[1..], versions, inplace, convert, id);
    }
  }

  /**
   * Files are removed only by a versioned store that does not keep files
   * in place: otherwise no batch removes anything.
   */
  lemma {:induction false} UnlinkOnlyWhenVersionedCopy(s: Store, items: seq<WorkItem>, versions: bool, inplace: bool, convert: Converter)
    requires !versions || inplace
    ensures RunBatch(s, items, versions, inplace, convert).after.unlinked == s.unlinked
    decreases |items|
  {
    if items != [] {
      match ApplyItem(s, items[0], versions, inplace, convert)
      case Raised =>
      case Applied(s') => UnlinkOnlyWhenVersionedCopy(s', items[1..], versions, inplace, convert);
    }
  }

  // ---------------------------------------------------------------------
  // Queue elements

  /**
   * The batch an element stands for: a single record is a one-item batch
   * and a list its own items. An empty list has no first item: reading it
   * raises outside the worker's handler, which ends the worker (None).
   */
  function Normalise(e: Element): (r: Option<seq<WorkItem>>)
    ensures e.Single? ==> r == Some([e.item])
    ensures e.Sequence? ==> (r.None? <==> e.items == [])
    ensures e.Sequence? && r.Some? ==> r.value == e.items
  {
    match e
    case Single(item) => Some([item])
    case Sequence(items) => if items == [] then None else Some(items)
  }

  // ---------------------------------------------------------------------
  // The synchronous part of enque

  /**
   * The outcome of `enque`: the index afterwards and the record left on
   * the queue, if any; or the failure of adding or replacing a missing
   * document.
   */
  datatype EnqueOutcome = Enqueued(docs: Index, queued: Option<WorkItem>) | NoDocument

  /**
   * CREATE adds and UPDATE replaces the document at once, and the record is
   * queued, as an UPDATE, only when there is file information; DELETE
   * deletes the document stored under the uid at once and queues nothing.
   */
  function EnquePolicy(docs: Index, uid: string, vid: Option<string>, doc: Option<Document>, op: Op, file: Option<FileStuff>): (r: EnqueOutcome)
    ensures r.NoDocument? <==> op != Delete && doc.None?
    ensures r.Enqueued? && op == Delete ==> r.docs == docs - {uid} && r.queued.None?
    ensures r.Enqueued? && op != Delete ==> r.docs == docs[doc.value.id := doc.value]
    ensures r.Enqueued? ==> (r.queued.Some? <==> op != Delete && file.Some?)
    ensures r.Enqueued? && r.queued.Some? ==> r.queued.value == WorkItem(uid, vid, doc, Update, file)
  {
    if op == Delete then Enqueued(docs - {uid}, None)
    else if doc.None? then NoDocument
    else
      var docs' := docs[doc.value.id := doc.value];
      Enqueued(docs', if file.Some? then Some(WorkItem(uid, vid, doc, Update, file)) else None)
  }

  /** A record `enque` queues never makes the worker raise. */
  lemma {:induction false} QueuedItemApplies(docs: Index, uid: string, vid: Option<string>, doc: Option<Document>, op: Op, file: Option<FileStuff>,
                                            s: Store, versions: bool, inplace: bool, convert: Converter)
    requires EnquePolicy(docs, uid, vid, doc, op, file).Enqueued?
    requires EnquePolicy(docs, uid, vid, doc, op, file).queued.Some?
    ensures ApplyItem(s, EnquePolicy(docs, uid, vid, doc, op, file).queued.value, versions, inplace, convert).Applied?
  {
    var item := EnquePolicy(docs, uid, vid, doc, op, file).queued.value;
    assert item.op == Update && item.file.Some? && item.doc.Some?;
  }

  /**
   * A file-backed CREATE or UPDATE followed by the worker's pass over its
   * record leaves the document stored under its identity with its own
   * fields followed by the converted text's `fulltext` chunks.
   */
  lemma EnqueThenIndex(docs: Index, uid: string, vid: Option<string>, d: Document, op: Op, f: FileStuff,
                       unlinked: seq<string>, versions: bool, inplace: bool, convert: Converter)
    requires op != Delete && convert(f).Some?
    ensures var e := EnquePolicy(docs, uid, vid, Some(d), op, Some(f));
            && e.Enqueued? && e.queued.Some?
            && var o := RunBatch(Store(e.docs, unlinked), [e.queued.value], versions, inplace, convert);
               && o.completed
               && o.after.docs == docs[d.id := d.(fields := d.fields + FulltextOf(convert(f).value))]
  {
    var e := EnquePolicy(docs, uid, vid, Some(d), op, Some(f));
    var item := e.queued.value;
    assert RunBatch(Store(e.docs, unlinked), [item], versions, inplace, convert)
        == RunBatch(ApplyItem(Store(e.docs, unlinked), item, versions, inplace, convert).after, [], versions, inplace, convert);
  }
}
