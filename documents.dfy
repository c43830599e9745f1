/**
 * The data model shared by the index manager, the tagging logic and the
 * background worker: engine documents, the operations the indexer knows,
 * queued work and the backing store's capability interface.
 */
module Documents {
  import opened Wrappers

  /** One engine field: a name and the engine-ready value. */
  datatype Field = Field(name: string, value: string)

  /**
   * An engine document: its engine identity, its field list, and the data
   * map holding stored attributes (tags live under the "tags" key as a list).
   */
  datatype Document = Document(id: string, fields: seq<Field>, data: map<string, seq<string>>)

  /** The indexer operations CREATE = 1, UPDATE = 2, DELETE = 3. */
  datatype Op = Create | Update | Delete

  /** The (filename, mimetype) pair handed to the converter. */
  datatype FileStuff = FileStuff(filename: string, mimetype: string)

  /** A queued (uid, vid, doc, operation, filestuff) record. */
  datatype WorkItem = WorkItem(uid: string, vid: Option<string>, doc: Option<Document>, op: Op, file: Option<FileStuff>)

  /**
   * One element of the work queue: either a single record put by `enque`
   * or the list of records put by `enqueSequence`.
   */
  datatype Element = Single(item: WorkItem) | Sequence(items: seq<WorkItem>)

  /**
   * The backing store as the index sees it: its capability flags and its
   * `tip(uid)` lookup of a uid's latest version id.
   */
  datatype BackingStore = BackingStore(capabilities: set<string>, tip: string -> string)

  /** The engine's documents, keyed by engine identity. */
  type Index = map<string, Document>

  /** Every document is stored under its own identity. */
  ghost predicate KeyedById(docs: Index) {
    forall id :: id in docs ==> docs[id].id == id
  }

  /**
   * A document belongs to the chain of `uid` (restricted to version `vid`
   * when one is given) when its fields carry that uid (and that vid).
   */
  predicate InChain(d: Document, uid: string, vid: Option<string>) {
    Field("uid", uid) in d.fields && (vid.Some? ==> Field("vid", vid.value) in d.fields)
  }

  /** Look-up by engine identity; an absent id is the source's KeyError. */
  function Get(docs: Index, id: string): (r: Result<Document, string>)
    ensures r.Ok? <==> id in docs
    ensures r.Ok? ==> r.value == docs[id]
    ensures r.Err? ==> r.error == id
  {
    if id in docs then Ok(docs[id]) else Err(id)
  }
}
