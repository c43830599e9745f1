/**
 * Field configuration and document construction: the field actions
 * `addField` registers, the identity `index` gives a document, the fields
 * it builds from the registered properties, and the values
 * `get_uniquevaluesfor` recovers from a field's terms.
 */
module Schema {
  import opened Wrappers
  import opened Documents

  // ---------------------------------------------------------------------
  // addField

  /** The engine's field actions, with the arguments each is registered with. */
  datatype FieldAction =
    | StoreContent
    | IndexExact
    | IndexFreetext(language: string, options: map<string, string>)
    | Sortable(fieldType: string)
    | Collapse

  const LANGUAGE_KEY: string := "language"

  /**
   * The actions `addField` registers for a field, in order: STORE_CONTENT
   * when stored; INDEX_EXACT for an exact field and otherwise
   * INDEX_FREETEXT with the `language` option (the index's default when
   * absent) and the remaining options; SORTABLE with the type when
   * sortable; COLLAPSE when collapsed.
   */
  function FieldActions(store: bool, exact: bool, sortable: bool, fieldType: string, collapse: bool,
                        options: map<string, string>, defaultLanguage: string): (r: seq<FieldAction>)
    ensures |r| == (if store then 1 else 0) + 1 + (if sortable then 1 else 0) + (if collapse then 1 else 0)
    ensures StoreContent in r <==> store
    ensures store ==> r[0] == StoreContent
    ensures r[if store then 1 else 0]
         == if exact then IndexExact
            else IndexFreetext(if LANGUAGE_KEY in options then options[LANGUAGE_KEY] else defaultLanguage, options - {LANGUAGE_KEY})
    ensures sortable ==> r[if store then 2 else 1] == Sortable(fieldType)
    ensures IndexExact in r <==> exact
    ensures Collapse in r <==> collapse
    ensures collapse ==> r[|r| - 1] == Collapse
    ensures forall i :: 0 <= i < |r| && r[i].Sortable? ==> sortable && r[i].fieldType == fieldType
    ensures sortable ==> Sortable(fieldType) in r
  {
    var language := if LANGUAGE_KEY in options then options[LANGUAGE_KEY] else defaultLanguage;
    var index := if exact then IndexExact else IndexFreetext(language, options - {LANGUAGE_KEY});
    (if store then [StoreContent] else [])
    + [index]
    + (if sortable then [Sortable(fieldType)] else [])
    + (if collapse then [Collapse] else [])
  }

  /** Whether an action decides how a field's text is indexed. */
  predicate IsIndexing(a: FieldAction) {
    a.IndexExact? || a.IndexFreetext?
  }

  /** Every field is indexed in exactly one way: exact or free text. */
  lemma {:induction false} OneIndexingAction(store: bool, exact: bool, sortable: bool, fieldType: string, collapse: bool,
                                            options: map<string, string>, defaultLanguage: string)
    ensures var r := FieldActions(store, exact, sortable, fieldType, collapse, options, defaultLanguage);
            exists i :: 0 <= i < |r| && IsIndexing(r[i]) && forall j :: 0 <= j < |r| && j != i ==> !IsIndexing(r[j])
  {
    var r := FieldActions(store, exact, sortable, fieldType, collapse, options, defaultLanguage);
    var i := if store then 1 else 0;
    assert IsIndexing(r[i]);
    forall j | 0 <= j < |r| && j != i ensures !IsIndexing(r[j]) {
      if j < i {
        assert r[j] == StoreContent;
      } else if sortable && j == i + 1 {
        assert r[j] == Sortable(fieldType);
      } else {
        assert r[j] == Collapse;
      }
    }
  }

  /**
   * Only a field that is not exact is indexed as free text, in the
   * `language` option (the index's default when absent) with the options
   * other than `language`.
   */
  lemma {:induction false} FreetextSettings(store: bool, exact: bool, sortable: bool, fieldType: string, collapse: bool,
                                           options: map<string, string>, defaultLanguage: string)
    ensures var r := FieldActions(store, exact, sortable, fieldType, collapse, options, defaultLanguage);
            forall i :: 0 <= i < |r| && r[i].IndexFreetext? ==>
              && !exact
              && r[i].language == (if LANGUAGE_KEY in options then options[LANGUAGE_KEY] else defaultLanguage)
              && r[i].options == options - {LANGUAGE_KEY}
  {
    var r := FieldActions(store, exact, sortable, fieldType, collapse, options, defaultLanguage);
    var p := if store then 1 else 0;
    forall i | 0 <= i < |r|
      ensures r[i].IndexFreetext? ==>
                && !exact
                && r[i].language == (if LANGUAGE_KEY in options then options[LANGUAGE_KEY] else defaultLanguage)
                && r[i].options == options - {LANGUAGE_KEY}
    {
      if i < p {
        assert r[i] == StoreContent;
      } else if i == p {
      } else if sortable && i == p + 1 {
        assert r[i] == Sortable(fieldType);
      } else {
        assert r[i] == Collapse;
      }
    }
  }

  // ---------------------------------------------------------------------
  // Document identity in index()

  const UID_KEY: string := "uid"
  const VID_KEY: string := "vid"
  const MIME_KEY: string := "mime_type"
  const DEFAULT_VID: string := "1"
  const DEFAULT_MIMETYPE: string := "text/plain"

  /** The identity `index` settles on: uid, version id, engine document id, and the operation queued. */
  datatype Identity = Identity(uid: string, vid: string, docId: string, op: Op)

  /** A property value Python treats as true: present and non-empty. */
  predicate Given(props: map<string, string>, key: string) {
    key in props && props[key] != ""
  }

  /**
   * Identity rules of `index`. A missing or empty uid is replaced by a
   * fresh one (the first `createUid` call) and makes the operation CREATE,
   * otherwise UPDATE. A versioned store gives the document its own fresh id
   * (the next call) and keeps the supplied vid; otherwise the document id
   * is the uid. A missing vid, and every vid on an unversioned store,
   * becomes "1".
   */
  function AssignIdentity(props: map<string, string>, versions: bool, createUid: nat -> string): (r: Identity)
    ensures r.op == Create <==> !Given(props, UID_KEY)
    ensures r.op == Update ==> r.uid == props[UID_KEY]
    ensures r.op == Create ==> r.uid == createUid(0)
    ensures !versions ==> r.docId == r.uid && r.vid == DEFAULT_VID
    ensures versions ==> r.docId == createUid(if r.op == Create then 1 else 0)
    ensures versions ==> r.vid == if Given(props, VID_KEY) then props[VID_KEY] else DEFAULT_VID
    ensures r.vid != ""
  {
    var created := !Given(props, UID_KEY);
    var uid := if created then createUid(0) else props[UID_KEY];
    var docId := if versions then createUid(if created then 1 else 0) else uid;
    var vid := if versions && Given(props, VID_KEY) then props[VID_KEY] else DEFAULT_VID;
    Identity(uid, vid, docId, if created then Create else Update)
  }

  /** With fresh ids all distinct, a versioned CREATE gives the document an id different from its uid. */
  lemma VersionedCreateSeparatesIds(props: map<string, string>, createUid: nat -> string)
    requires forall i, j :: i != j ==> createUid(i) != createUid(j)
    requires !Given(props, UID_KEY)
    ensures AssignIdentity(props, true, createUid).docId != AssignIdentity(props, true, createUid).uid
  {
    assert createUid(1) != createUid(0);
  }

  /** The properties after `index` has written the resolved uid and vid back into them. */
  function StampedProps(props: map<string, string>, id: Identity): (r: map<string, string>)
    ensures r.Keys == props.Keys + {UID_KEY, VID_KEY}
    ensures r[UID_KEY] == id.uid && r[VID_KEY] == id.vid
    ensures forall k :: k in props && k != UID_KEY && k != VID_KEY ==> r[k] == props[k]
  {
    props[UID_KEY := id.uid][VID_KEY := id.vid]
  }

  /** The file's mime type: the `mime_type` property when it has a value, else text/plain. */
  function MimeType(props: map<string, string>): (m: string)
    ensures Given(props, MIME_KEY) ==> m == props[MIME_KEY]
    ensures !Given(props, MIME_KEY) ==> m == DEFAULT_MIMETYPE
    ensures m != ""
  {
    if Given(props, MIME_KEY) then props[MIME_KEY] else DEFAULT_MIMETYPE
  }

  /** The file information queued with the document: only when a file name is given. */
  function FileInfo(filename: Option<string>, props: map<string, string>, abspath: string -> string): (r: Option<FileStuff>)
    ensures r.Some? <==> filename.Some? && filename.value != ""
    ensures r.Some? ==> r.value == FileStuff(abspath(filename.value), MimeType(props))
  {
    if filename.Some? && filename.value != "" then Some(FileStuff(abspath(filename.value), MimeType(props))) else None
  }

  /** The engine value of a property (`for_xapian`), given its key and its value. */
  type ValueMapper = (string, string) -> string

  /**
   * `fs` holds, once each, a field for every property whose key is a
   * registered field name, with the engine value of that property, and
   * nothing else.
   */
  predicate FieldsFor(fs: seq<Field>, props: map<string, string>, registered: set<string>, forXapian: ValueMapper) {
    && (forall i :: 0 <= i < |fs| ==>
          fs[i].name in props && fs[i].name in registered && fs[i].value == forXapian(fs[i].name, props[fs[i].name]))
    && (forall k :: k in props && k in registered ==> Field(k, forXapian(k, props[k])) in fs)
    && (forall i, j :: 0 <= i < j < |fs| ==> fs[i].name != fs[j].name)
  }

  /**
   * The property loop of `index`: visits the properties in the dictionary's
   * iteration order, skips each key that is not a registered field and
   * appends a field with the engine value for every other one.
   */
  method BuildFields(props: map<string, string>, registered: set<string>, forXapian: ValueMapper) returns (fs: seq<Field>)
    ensures FieldsFor(fs, props, registered, forXapian)
  {
    fs := [];
    var remaining := props.Keys;
    while remaining != {}
      invariant remaining <= props.Keys
      invariant forall i :: 0 <= i < |fs| ==>
                  fs[i].name in props && fs[i].name !in remaining && fs[i].name in registered
                  && fs[i].value == forXapian(fs[i].name, props[fs[i].name])
      invariant forall k :: k in props && k in registered && k !in remaining ==> Field(k, forXapian(k, props[k])) in fs
      invariant forall i, j :: 0 <= i < j < |fs| ==> fs[i].name != fs[j].name
      decreases remaining
    {
      var k :| k in remaining;
      if k in registered {
        fs := fs + [Field(k, forXapian(k, props[k]))];
      }
      remaining := remaining - {k};
    }
  }

  /** A property whose key is not registered contributes no field. */
  lemma UnregisteredKeysSkipped(fs: seq<Field>, props: map<string, string>, registered: set<string>, forXapian: ValueMapper, k: string)
    requires FieldsFor(fs, props, registered, forXapian)
    requires k !in registered
    ensures forall f :: f in fs ==> f.name != k
  {
  }

  // ---------------------------------------------------------------------
  // get_uniquevaluesfor

  predicate StartsWith(s: string, prefix: string) {
    |prefix| <= |s| && s[..|prefix|] == prefix
  }

  /**
   * The value a term under the field's prefix stands for: the part after
   * the prefix with one leading `:` dropped; a term no longer than the
   * prefix stands for nothing.
   */
  function TermValue(term: string, prefix: string): (r: Option<string>)
    requires StartsWith(term, prefix)
    ensures r.Some? <==> |term| > |prefix|
    ensures r.Some? ==> term == prefix + r.value || term == prefix + ":" + r.value
    ensures r.Some? && term[|prefix|] == ':' ==> term == prefix + ":" + r.value
    ensures r.Some? && term[|prefix|] != ':' ==> term == prefix + r.value && r.value != "" && r.value[0] != ':'
  {
    if |term| <= |prefix| then None
    else
      var rest := term[|prefix|..];
      assert term == prefix + rest;
      if rest[0] == ':' then
        assert rest == ":" + rest[1..];
        Some(rest[1..])
      else Some(rest)
  }

  /** The distinct values of a field: one per term under its prefix that is longer than the prefix. */
  function UniqueValues(terms: set<string>, prefix: string): (r: set<string>)
    ensures forall v :: v in r ==> prefix + ":" + v in terms || (v != "" && v[0] != ':' && prefix + v in terms)
  {
    set t | t in terms && StartsWith(t, prefix) && |t| > |prefix| :: TermValue(t, prefix).value
  }

  /**
   * Conversely, a value is recovered from its term `prefix:value`, and
   * from `prefix value` when that does not itself start with the colon.
   */
  lemma UniqueValueOfTerm(terms: set<string>, prefix: string, v: string, colon: bool)
    requires colon || (v != [] && v[0] != ':')
    requires (if colon then prefix + ":" + v else prefix + v) in terms
    ensures v in UniqueValues(terms, prefix)
  {
    var t := if colon then prefix + ":" + v else prefix + v;
    assert t[..|prefix|] == prefix;
    assert t[|prefix|..] == (if colon then ":" + v else v);
    if colon {
      assert (":" + v)[1..] == v;
    }
    assert TermValue(t, prefix).value == v;
  }

  /**
   * The unique values are exactly the values of the terms `prefix:value`
   * and of the terms `prefix value` whose value does not start with `:`.
   */
  lemma UniqueValuesExact(terms: set<string>, prefix: string)
    ensures forall v :: v in UniqueValues(terms, prefix) <==>
      prefix + ":" + v in terms || (v != "" && v[0] != ':' && prefix + v in terms)
  {
    forall v | prefix + ":" + v in terms || (v != "" && v[0] != ':' && prefix + v in terms)
      ensures v in UniqueValues(terms, prefix)
    {
      UniqueValueOfTerm(terms, prefix, v, prefix + ":" + v in terms);
    }
  }
}
