/**
 * The index manager: the engine's documents, the work queue shared with
 * the background worker, the registered fields and field actions, and the
 * bound backing store, with the operations that change them.
 */
module IndexManagement {
  import opened Wrappers
  import opened Documents
  import opened Tags
  import opened Queries
  import opened Pipeline
  import opened Schema

  /** Why `tag` fails: no document carries the uid (KeyError), or "tip" was asked for with no store bound. */
  datatype TagError = UnknownUid(uid: string) | NoStoreForTip

  const VERSIONS_CAPABILITY: string := "versions"
  const INPLACE_CAPABILITY: string := "inplace"

  /** The registrations `addField` makes for a field: each action paired with the field name. */
  function ForField(key: string, acts: seq<FieldAction>): seq<(string, FieldAction)> {
    seq(|acts|, i requires 0 <= i < |acts| => (key, acts[i]))
  }

  class IndexManager {
    /** The engine's documents, by engine identity. */
    var docs: Index
    /** Queue elements not yet taken by the worker. */
    var queue: seq<Element>
    /** The queue's count of elements put and not yet marked done. */
    var unfinished: nat
    /** Set once an element ended the worker thread. */
    var indexerFailed: bool
    /** Source files the worker has removed, in order. */
    var unlinked: seq<string>
    /** The names of the configured fields. */
    var fields: set<string>
    /** The field actions registered with the engine, in order. */
    var actions: seq<(string, FieldAction)>
    /** The default language of free-text fields. */
    var language: string
    var backingstore: Option<BackingStore>

    /** Every queued element counts as unfinished, and every document is stored under its identity. */
    ghost predicate Valid()
      reads this
    {
      unfinished >= |queue| && KeyedById(docs)
    }

    constructor(defaultLanguage: string)
      ensures Valid()
      ensures docs == map[] && queue == [] && unfinished == 0 && !indexerFailed && unlinked == []
      ensures fields == {} && actions == [] && language == defaultLanguage && backingstore.None?
    {
      docs := map[];
      queue := [];
      unfinished := 0;
      indexerFailed := false;
      unlinked := [];
      fields := {};
      actions := [];
      language := defaultLanguage;
      backingstore := None;
    }

    /** `bind_to`: the backing store this index belongs to. */
    method BindTo(store: BackingStore)
      modifies this
      ensures backingstore == Some(store)
      ensures docs == old(docs) && queue == old(queue) && unfinished == old(unfinished)
      ensures indexerFailed == old(indexerFailed) && unlinked == old(unlinked)
      ensures fields == old(fields) && actions == old(actions) && language == old(language)
    {
      backingstore := Some(store);
    }

    /** The store keeps versions: false when no store is bound. */
    function Versions(): (r: bool)
      reads this
      ensures r ==> backingstore.Some?
      ensures backingstore.Some? ==> (r <==> VERSIONS_CAPABILITY in backingstore.value.capabilities)
    {
      if backingstore.Some? then VERSIONS_CAPABILITY in backingstore.value.capabilities else false
    }

    /** The store keeps files in place: false when no store is bound. */
    function Inplace(): (r: bool)
      reads this
      ensures r ==> backingstore.Some?
      ensures backingstore.Some? ==> (r <==> INPLACE_CAPABILITY in backingstore.value.capabilities)
    {
      if backingstore.Some? then INPLACE_CAPABILITY in backingstore.value.capabilities else false
    }

    // -------------------------------------------------------------------
    // Field management

    /**
     * `addField`: registers the field's actions with the engine, one call
     * per action in the order `FieldActions` lists them, and records the
     * field name.
     */
    method AddField(key: string, store: bool, exact: bool, sortable: bool, fieldType: string, collapse: bool,
                    options: map<string, string>)
      modifies this
      ensures actions == old(actions) + ForField(key, FieldActions(store, exact, sortable, fieldType, collapse, options, old(language)))
      ensures fields == old(fields) + {key}
      ensures docs == old(docs) && queue == old(queue) && unfinished == old(unfinished)
      ensures indexerFailed == old(indexerFailed) && unlinked == old(unlinked)
      ensures language == old(language) && backingstore == old(backingstore)
    {
      actions := actions + ForField(key, FieldActions(store, exact, sortable, fieldType, collapse, options, language));
      fields := fields + {key};
    }

    // -------------------------------------------------------------------
    // The write path

    /**
     * `enque`: CREATE adds and UPDATE replaces the document at once, then
     * the record is queued as an UPDATE only when it has file information;
     * DELETE deletes the document stored under the uid at once. `ok` is
     * false when there is no document to add or replace.
     */
    method Enque(uid: string, vid: Option<string>, doc: Option<Document>, op: Op, file: Option<FileStuff>) returns (ok: bool)
      requires Valid()
      modifies this
      ensures Valid()
      ensures var e := EnquePolicy(old(docs), uid, vid, doc, op, file);
              && ok == e.Enqueued?
              && (e.NoDocument? ==> docs == old(docs) && queue == old(queue) && unfinished == old(unfinished))
              && (e.Enqueued? ==> docs == e.docs)
              && (e.Enqueued? && e.queued.None? ==> queue == old(queue) && unfinished == old(unfinished))
              && (e.Enqueued? && e.queued.Some? ==> queue == old(queue) + [Single(e.queued.value)] && unfinished == old(unfinished) + 1)
      ensures indexerFailed == old(indexerFailed) && unlinked == old(unlinked)
      ensures fields == old(fields) && actions == old(actions) && language == old(language) && backingstore == old(backingstore)
    {
      if op == Create || op == Update {
        if doc.None? {
          return false;
        }
        docs := docs[doc.value.id := doc.value];
        ok := true;
        if file.None? {
          return;
        }
        queue := queue + [Single(WorkItem(uid, vid, doc, Update, file))];
        unfinished := unfinished + 1;
      } else {
        docs := docs - {uid};
        ok := true;
      }
    }

    /** `enqueSequence`: the records go on the queue as one element, to be applied in one pass. */
    method EnqueSequence(commands: seq<WorkItem>)
      requires Valid()
      modifies this
      ensures Valid()
      ensures queue == old(queue) + [Sequence(commands)] && unfinished == old(unfinished) + 1
      ensures docs == old(docs) && indexerFailed == old(indexerFailed) && unlinked == old(unlinked)
      ensures fields == old(fields) && actions == old(actions) && language == old(language) && backingstore == old(backingstore)
    {
      queue := queue + [Sequence(commands)];
      unfinished := unfinished + 1;
    }

    /** `delete`: the document stored under the uid goes at once; nothing is queued. */
    method Delete(uid: string)
      requires Valid()
      modifies this
      ensures Valid()
      ensures docs == old(docs) - {uid} && queue == old(queue) && unfinished == old(unfinished)
      ensures indexerFailed == old(indexerFailed) && unlinked == old(unlinked)
      ensures fields == old(fields) && actions == old(actions) && language == old(language) && backingstore == old(backingstore)
    {
      var _ := Enque(uid, None, None, Op.Delete, None);
    }
  
    // -------------------------------------------------------------------
    // The worker

    /**
     * One record of a batch, as the worker applies it: DELETE removes the
     * document stored under the uid; UPDATE converts the file and, when
     * conversion succeeds, appends the `fulltext` chunks read from the
     * result, replaces the document and, on a versioned store that does not
     * keep files in place, removes the source file. `raised` reports the
     * exception that ends the batch.
     */
    method ApplyWorkItem(item: WorkItem, versions: bool, inplace: bool, convert: Converter) returns (raised: bool)
      requires Valid()
      modifies this
      ensures Valid()
      ensures var o := ApplyItem(Store(old(docs), old(unlinked)), item, versions, inplace, convert);
              && raised == o.Raised?
              && (o.Applied? ==> docs == o.after.docs && unlinked == o.after.unlinked)
              && (o.Raised? ==> docs == old(docs) && unlinked == old(unlinked))
      ensures queue == old(queue) && unfinished == old(unfinished) && indexerFailed == old(indexerFailed)
      ensures fields == old(fields) && actions == old(actions) && language == old(language) && backingstore == old(backingstore)
    {
      raised := false;
      match item.op {
        case Delete =>
          docs := docs - {item.uid};
        case Update =>
          if item.file.None? {
            return true;
          }
          var filestuff := item.file.value;
          var fp := convert(filestuff);
          if fp.Some? {
            if item.doc.None? {
              return true;
            }
            var chunks := ReadFulltext(fp.value);
            var d := item.doc.value;
            d := d.(fields := d.fields + chunks);
            docs := docs[d.id := d];
            if versions && !inplace {
              unlinked := unlinked + [filestuff.filename];
            }
          }
        case Create =>
      }
    }

    /**
     * One pass of the worker loop over the element at the head of the
     * queue. A single record becomes a one-record batch; the records are
     * applied in order until one raises; the element is marked done only
     * when the whole batch went through. An empty list has no first record
     * and ends the worker. With nothing queued, or the worker gone,
     * nothing happens. `versions` and `inplace` are the capability values
     * the worker read when it started.
     */
    method WorkerStep(versions: bool, inplace: bool, convert: Converter)
      requires Valid()
      modifies this
      ensures Valid()
      ensures old(indexerFailed) || old(queue) == [] ==>
                docs == old(docs) && queue == old(queue) && unfinished == old(unfinished)
                && unlinked == old(unlinked) && indexerFailed == old(indexerFailed)
      ensures !old(indexerFailed) && old(queue) != [] ==>
                && queue == old(queue)[1..]
                && var batch := Normalise(old(queue)[0]);
                   && (batch.None? ==> indexerFailed && docs == old(docs) && unlinked == old(unlinked) && unfinished == old(unfinished))
                   && (batch.Some? ==>
                         var o := RunBatch(Store(old(docs), old(unlinked)), batch.value, versions, inplace, convert);
                         && !indexerFailed
                         && docs == o.after.docs && unlinked == o.after.unlinked
                         && unfinished == old(unfinished) - (if o.completed then 1 else 0))
      ensures fields == old(fields) && actions == old(actions) && language == old(language) && backingstore == old(backingstore)
    {
      if indexerFailed || queue == [] {
        return;
      }
      var data := queue[0];
      queue := queue[1..];
      var batch := Normalise(data);
      if batch.None? {
        indexerFailed := true;
        return;
      }
      var items := batch.value;
      ghost var start := Store(docs, unlinked);
      var i := 0;
      var completed := true;
      while i < |items|
        invariant 0 <= i <= |items|
        invariant Valid() && unfinished >= |queue| + 1
        invariant RunBatch(start, items, versions, inplace, convert)
                  == RunBatch(Store(docs, unlinked), items[i..], versions, inplace, convert)
        invariant queue == old(queue)[1..] && unfinished == old(unfinished) && !indexerFailed
        invariant fields == old(fields) && actions == old(actions) && language == old(language) && backingstore == old(backingstore)
        decreases |items| - i
      {
        ghost var before := Store(docs, unlinked);
        var raised := ApplyWorkItem(items[i], versions, inplace, convert);
        assert items[i..][0] == items[i] && items[i..][1..] == items[i + 1..];
        if raised {
          completed := false;
          assert RunBatch(start, items, versions, inplace, convert) == BatchOutcome(before, false);
          break;
        }
        i := i + 1;
      }
      if completed {
        assert items[i..] == [];
        unfinished := unfinished - 1;
      }
    }

    // -------------------------------------------------------------------
    // Indexing

    /**
     * `index`: settles the document's identity, writes the uid and vid back
     * into the properties, builds one field per registered property, queues
     * the file for conversion when one is given, hands the document to
     * `enque` and returns the document's identity. `written` is the
     * caller's property dictionary as `index` leaves it.
     */
    method Index(props: map<string, string>, filename: Option<string>, createUid: nat -> string,
                 abspath: string -> string, forXapian: ValueMapper) returns (id: string, written: map<string, string>)
      requires Valid()
      modifies this
      ensures Valid()
      ensures var ident := AssignIdentity(props, old(Versions()), createUid);
              var stamped := StampedProps(props, ident);
              var file := FileInfo(filename, stamped, abspath);
              && id == ident.docId
              && written == stamped
              && id in docs && docs[id].id == id && docs[id].data == map[]
              && FieldsFor(docs[id].fields, stamped, old(fields), forXapian)
              && docs == old(docs)[id := docs[id]]
              && queue == old(queue) + (if file.Some? then [Single(WorkItem(ident.uid, Some(ident.vid), Some(docs[id]), Update, file))] else [])
              && unfinished == old(unfinished) + |queue| - |old(queue)|
      ensures indexerFailed == old(indexerFailed) && unlinked == old(unlinked)
      ensures fields == old(fields) && actions == old(actions) && language == old(language) && backingstore == old(backingstore)
    {
      var ident := AssignIdentity(props, Versions(), createUid);
      var stamped := StampedProps(props, ident);
      var file := FileInfo(filename, stamped, abspath);
      var fs := BuildFields(stamped, fields, forXapian);
      var doc := Document(ident.docId, fs, map[]);
      var _ := Enque(ident.uid, Some(ident.vid), Some(doc), ident.op, file);
      id := doc.id;
      written := stamped;
    }

    // -------------------------------------------------------------------
    // Look-up and search

    /**
     * The identities of the documents that match an exact query: the
     * engine's answer to a search, by a pass over every document.
     */
    method Matching(q: Query) returns (ids: set<string>)
      requires IsExact(q)
      ensures ids == set id | id in docs && ExactMatches(docs[id], q)
    {
      ids := {};
      var remaining := docs.Keys;
      while remaining != {}
        invariant remaining <= docs.Keys
        invariant ids == set id | id in docs && id !in remaining && ExactMatches(docs[id], q)
        decreases remaining
      {
        var id :| id in remaining;
        if ExactMatches(docs[id], q) {
          ids := ids + {id};
        }
        remaining := remaining - {id};
      }
    }

    /**
     * `get_by_uid_prop`: the documents of the uid's version chain, or of
     * the one version `rev` names ("tip" asks the backing store).
     */
    method GetByUidProp(uid: string, rev: Option<string>) returns (r: Result<set<string>, QueryError>)
      ensures r.Err? <==> rev == Some("tip") && backingstore.None?
      ensures r.Ok? ==> r.value == set id | id in docs && InChain(docs[id], uid, ResolveRev(uid, rev, backingstore).value)
    {
      var req := UidQuery(uid, rev, backingstore);
      if req.Err? {
        return Err(req.error);
      }
      var ids := Matching(req.value.query);
      return Ok(ids);
    }

    /**
     * `search`: the query translated from the argument, the index range,
     * and the sort key (a list of keys is cut to its first).
     */
    method Search(input: SearchInput, startIndex: int, endIndex: int, orderBy: OrderBy)
        returns (r: Result<SearchRequest, QueryError>, order: seq<string>)
      ensures r.Err? ==> Translates(input, fields, Err(r.error), order)
      ensures r.Ok? ==> Translates(input, fields, Ok(r.value.query), order)
      ensures r.Ok? ==> r.value.startIndex == startIndex && r.value.endIndex == endIndex && r.value.sortBy == SortKey(orderBy)
    {
      var q;
      q, order := TranslateQuery(input, fields);
      if q.Err? {
        return Err(q.error), order;
      }
      r := Ok(SearchRequest(q.value, startIndex, endIndex, SortKey(orderBy)));
    }

    // -------------------------------------------------------------------
    // Tagging

    /**
     * `tag`: looks up the uid's version chain (or the one version `rev`
     * names) and fails when it is empty; otherwise applies the parsed tag
     * edits, in order, to a copy of every document of the chain and then
     * replaces each document with its copy.
     */
    method Tag(uid: string, tagExpr: string, rev: Option<string>) returns (outcome: Outcome<TagError>)
      requires Valid()
      modifies this
      ensures Valid()
      ensures ResolveRev(uid, rev, old(backingstore)).Err? ==> outcome == Fail(NoStoreForTip) && docs == old(docs)
      ensures ResolveRev(uid, rev, old(backingstore)).Ok? ==>
                var vid := ResolveRev(uid, rev, old(backingstore)).value;
                && (outcome == Fail(UnknownUid(uid)) <==> forall id :: id in old(docs) ==> !InChain(old(docs)[id], uid, vid))
                && (outcome.Fail? ==> outcome == Fail(UnknownUid(uid)) && docs == old(docs))
                && (outcome.Pass? ==> docs == Retagged(old(docs), uid, vid, ParseTags(tagExpr)))
      ensures queue == old(queue) && unfinished == old(unfinished) && indexerFailed == old(indexerFailed) && unlinked == old(unlinked)
      ensures fields == old(fields) && actions == old(actions) && language == old(language) && backingstore == old(backingstore)
    {
      var found := GetByUidProp(uid, rev);
      if found.Err? {
        return Fail(NoStoreForTip);
      }
      var results := found.value;
      if results == {} {
        ghost var vid := ResolveRev(uid, rev, backingstore).value;
        forall id | id in docs ensures !InChain(docs[id], uid, vid) {
          assert id !in results;
        }
        return Fail(UnknownUid(uid));
      }
      var edits := ParseTags(tagExpr);
      var copies := EditCopies(results, edits);
      ReplaceAll(copies);
      outcome := Pass;
      ghost var vid := ResolveRev(uid, rev, backingstore).value;
      assert exists id :: id in old(docs) && InChain(old(docs)[id], uid, vid) by {
        var id :| id in results;
      }
    }

    /**
     * The nested loops of `tag`: for each edit in order, every document of
     * the chain has its copy's data edited.
     */
    method EditCopies(results: set<string>, edits: seq<TagEdit>) returns (copies: map<string, Document>)
      requires results <= docs.Keys
      ensures copies.Keys == results
      ensures forall id :: id in results ==> copies[id] == Retag(docs[id], edits)
    {
      copies := map id | id in results :: docs[id];
      var i := 0;
      while i < |edits|
        invariant 0 <= i <= |edits|
        invariant copies.Keys == results
        invariant forall id :: id in results ==> copies[id] == Retag(docs[id], edits[..i])
      {
        var remaining := results;
        while remaining != {}
          invariant remaining <= results
          invariant copies.Keys == results
          invariant forall id :: id in results && id !in remaining ==> copies[id] == Retag(docs[id], edits[..i + 1])
          invariant forall id :: id in remaining ==> copies[id] == Retag(docs[id], edits[..i])
          decreases remaining
        {
          var c :| c in remaining;
          RetagStep(docs[c], edits, i);
          copies := copies[c := copies[c].(data := EditData(copies[c].data, edits[i]))];
          remaining := remaining - {c};
        }
        i := i + 1;
      }
      assert edits[..|edits|] == edits;
    }

    /** The replace loop of `tag`: every edited copy is written back under its identity. */
    method ReplaceAll(copies: map<string, Document>)
      requires Valid()
      requires copies.Keys <= docs.Keys
      requires forall id :: id in copies ==> copies[id].id == id
      modifies this
      ensures Valid()
      ensures docs.Keys == old(docs).Keys
      ensures forall id :: id in docs ==> docs[id] == if id in copies then copies[id] else old(docs)[id]
      ensures queue == old(queue) && unfinished == old(unfinished) && indexerFailed == old(indexerFailed) && unlinked == old(unlinked)
      ensures fields == old(fields) && actions == old(actions) && language == old(language) && backingstore == old(backingstore)
    {
      var pending := copies.Keys;
      var updated := docs;
      while pending != {}
        invariant pending <= copies.Keys
        invariant updated.Keys == docs.Keys
        invariant forall id :: id in updated ==> updated[id] == if id in copies && id !in pending then copies[id] else docs[id]
        decreases pending
      {
        var c :| c in pending;
        updated := updated[c := copies[c]];
        pending := pending - {c};
      }
      docs := updated;
    }
  }
}
