/**
 * Tag expressions and tag edits: parsing an expression into
 * (tag, all, mode) triples, and the add / remove / clear edit each triple
 * makes to the "tags" entry of a document's data map.
 */
module Tags {
  import opened Wrappers
  import opened Text
  import opened Documents

  /** ADD = 1, REMOVE = 2. */
  datatype Mode = Add | Remove

  /** One parsed triple; `all` says the edit applies to the whole version chain. */
  datatype TagEdit = TagEdit(tag: string, all: bool, mode: Mode)

  const TAGS_KEY: string := "tags"

  /** The triple for one token: a leading `-` selects REMOVE and is dropped, then one trailing `:0` is dropped. */
  function ParseToken(token: string): (e: TagEdit)
    ensures e.all
    ensures e.mode == Remove <==> (|token| > 0 && token[0] == '-')
  {
    var remove := |token| > 0 && token[0] == '-';
    var t := if remove then token[1..] else token;
    TagEdit(if EndsWithRevision(t) then t[..|t| - 2] else t, true, if remove then Remove else Add)
  }

  /** True when the text ends with the `:0` revision suffix. */
  predicate EndsWithRevision(t: string) {
    |t| >= 2 && t[|t| - 2..] == ":0"
  }

  /** `_parse_tags`: one triple per whitespace-separated token of the lower-cased expression. */
  function ParseTags(tags: string): (r: seq<TagEdit>)
    ensures |r| == |Words(Lower(tags))|
    ensures forall i :: 0 <= i < |r| ==> r[i].all
  {
    var ws := Words(Lower(tags));
    seq(|ws|, i requires 0 <= i < |ws| => ParseToken(ws[i]))
  }

  function ModePrefix(m: Mode): string {
    if m == Remove then "-" else ""
  }

  /**
   * Every triple comes from the token at the same position: the token is the
   * mode prefix and the tag, followed by `:0` exactly when the text after
   * the prefix ends in `:0`, which is then stripped.
   */
  lemma ParseTagsTokens(tags: string, i: nat)
    requires i < |ParseTags(tags)|
    ensures var token := Words(Lower(tags))[i];
            var e := ParseTags(tags)[i];
            && e.all
            && (e.mode == Remove <==> token[0] == '-')
            && (EndsWithRevision(token[|ModePrefix(e.mode)|..]) ==> token == ModePrefix(e.mode) + e.tag + ":0")
            && (!EndsWithRevision(token[|ModePrefix(e.mode)|..]) ==> token == ModePrefix(e.mode) + e.tag)
            && IsLower(e.tag)
            && forall k :: 0 <= k < |e.tag| ==> !IsSpace(e.tag[k])
  {
    var ws := Words(Lower(tags));
    assert ParseTags(tags)[i] == ParseToken(ws[i]);
    LowerWordsAreLower(Lower(tags), i);
    ParseTokenShape(ws[i]);
    ParseTokenChars(ws[i]);
  }

  /**
   * A token is its triple's mode prefix and tag, followed by `:0` exactly
   * when the text after the prefix ends in `:0`: one such suffix is
   * stripped, and only then.
   */
  lemma ParseTokenShape(token: string)
    requires |token| > 0
    ensures var e := ParseToken(token);
            var rest := token[|ModePrefix(e.mode)|..];
            && (EndsWithRevision(rest) ==> token == ModePrefix(e.mode) + e.tag + ":0")
            && (!EndsWithRevision(rest) ==> token == ModePrefix(e.mode) + e.tag)
  {
    if token[0] == '-' {
      TagOfSuffix(token, 1);
      assert token[..1] == "-";
    } else {
      TagOfSuffix(token, 0);
    }
  }

  /** `-photo:0` removes `photo`, and of `a:0:0` only the last `:0` is stripped. */
  lemma ParseRevisionSuffix()
    ensures ParseToken("-photo:0") == TagEdit("photo", true, Remove)
    ensures ParseToken("a:0:0").tag == "a:0"
  {
    ParseTokenShape("-photo:0");
    assert "-photo:0"[1..] == "photo:0";
    ParseTokenShape("a:0:0");
  }

  /** A triple's tag is a slice of its token, so it has no whitespace and is lower-case when the token is. */
  lemma ParseTokenChars(token: string)
    requires IsWord(token)
    ensures var e := ParseToken(token);
            && (forall k :: 0 <= k < |e.tag| ==> !IsSpace(e.tag[k]))
            && (IsLower(token) ==> IsLower(e.tag))
  {
    var p := if token[0] == '-' then 1 else 0;
    TagOfSuffix(token, p);
  }

  /** The tag of the text after its first `p` characters is a slice of that text, followed by `:0` when one was dropped. */
  lemma TagOfSuffix(token: string, p: nat)
    requires p <= |token|
    ensures var t := token[p..];
            var tag := if EndsWithRevision(t) then t[..|t| - 2] else t;
            && token == token[..p] + tag + (if EndsWithRevision(t) then ":0" else "")
            && forall k :: 0 <= k < |tag| ==> tag[k] == token[p + k]
  {
    var t := token[p..];
    if EndsWithRevision(t) {
      assert t == t[..|t| - 2] + ":0";
    }
    assert token == token[..p] + t;
  }



  /** Every word of lower-cased text is lower-case. */
  lemma {:induction false} LowerWordsAreLower(s: string, i: nat)
    requires IsLower(s)
    requires i < |Words(s)|
    ensures IsLower(Words(s)[i])
    decreases |s|
  {
    if IsSpace(s[0]) {
      assert IsLower(s[1..]);
      LowerWordsAreLower(s[1..], i);
    } else {
      var n := RunEnd(s, 0);
      if i > 0 {
        assert IsLower(s[n..]);
        LowerWordsAreLower(s[n..], i - 1);
      }
    }
  }

  /** The token that writes one edit back as expression text. */
  function RenderEdit(e: TagEdit): string {
    ModePrefix(e.mode) + e.tag
  }

  /** An expression for a list of edits: the rendered tokens joined by single spaces. */
  function Render(edits: seq<TagEdit>): string {
    Join(seq(|edits|, i requires 0 <= i < |edits| => RenderEdit(edits[i])))
  }

  /**
   * The edits that the expression grammar can express: lower-case tags
   * without whitespace, not ending in `:0`, and additions whose tag is
   * non-empty and does not itself start with `-`.
   */
  predicate Expressible(e: TagEdit) {
    && e.all
    && IsLower(e.tag)
    && (forall k :: 0 <= k < |e.tag| ==> !IsSpace(e.tag[k]))
    && !EndsWithRevision(e.tag)
    && (e.mode == Add ==> |e.tag| > 0 && e.tag[0] != '-')
  }

  lemma ParseRenderedToken(e: TagEdit)
    requires Expressible(e)
    ensures ParseToken(RenderEdit(e)) == e
  {
    var token := RenderEdit(e);
    if e.mode == Remove {
      assert token == "-" + e.tag;
      assert token[0] == '-';
      assert token[1..] == e.tag;
    } else {
      assert token == e.tag;
    }
  }

  /** Parsing the rendering of expressible edits gives back the same edits. */
  lemma ParseRender(edits: seq<TagEdit>)
    requires forall i :: 0 <= i < |edits| ==> Expressible(edits[i])
    ensures ParseTags(Render(edits)) == edits
  {
    var tokens := seq(|edits|, i requires 0 <= i < |edits| => RenderEdit(edits[i]));
    forall i | 0 <= i < |tokens| ensures IsWord(tokens[i]) && IsLower(tokens[i]) {
      var e := edits[i];
      assert tokens[i] == ModePrefix(e.mode) + e.tag;
    }
    JoinIsLower(tokens);
    LowerOfLower(Join(tokens));
    WordsOfJoin(tokens);
    forall i | 0 <= i < |edits| ensures ParseTags(Render(edits))[i] == edits[i] {
      ParseRenderedToken(edits[i]);
    }
  }

  // ---------------------------------------------------------------------
  // Edits of a document's data map

  function Elems(s: seq<string>): set<string> {
    set x | x in s
  }

  predicate Distinct(s: seq<string>) {
    forall i, j :: 0 <= i < j < |s| ==> s[i] != s[j]
  }

  /** The stored tag list, `[]` when the document has none. */
  function StoredTags(data: map<string, seq<string>>): seq<string> {
    if TAGS_KEY in data then data[TAGS_KEY] else []
  }

  /** The list with repeated entries dropped, first occurrences kept. */
  function Dedup(s: seq<string>): (r: seq<string>)
    ensures Distinct(r)
    ensures Elems(r) == Elems(s)
  {
    if s == [] then []
    else
      var rest := Dedup(s[..|s| - 1]);
      assert Elems(s) == Elems(s[..|s| - 1]) + {s[|s| - 1]} by {
        assert s == s[..|s| - 1] + [s[|s| - 1]];
      }
      if s[|s| - 1] in rest then rest else rest + [s[|s| - 1]]
  }

  /** The list without any occurrence of `x`. */
  function Without(s: seq<string>, x: string): (r: seq<string>)
    requires Distinct(s)
    ensures Distinct(r)
    ensures Elems(r) == Elems(s) - {x}
  {
    if s == [] then []
    else
      assert Elems(s) == {s[0]} + Elems(s[1..]) by {
        assert s == [s[0]] + s[1..];
      }
      assert Distinct(s[1..]) by {
        forall i, j | 0 <= i < j < |s| - 1 ensures s[1..][i] != s[1..][j] {
          assert s[1..][i] == s[i + 1] && s[1..][j] == s[j + 1];
        }
      }
      var rest := Without(s[1..], x);
      if s[0] == x then rest
      else
        assert s[0] !in Elems(s[1..]) by {
          forall k | 0 <= k < |s| - 1 ensures s[1..][k] != s[0] {
            assert s[1..][k] == s[k + 1];
          }
        }
        var r := [s[0]] + rest;
        assert Elems(r) == {s[0]} + Elems(rest) by {
          assert forall y :: y in r <==> y == s[0] || y in rest;
        }
        assert forall j :: 0 < j < |r| ==> r[j] == rest[j - 1];
        r
  }

  /** True for the special `-` edit, which clears all tags. */
  predicate IsClear(e: TagEdit) {
    e.tag == "" && e.mode == Remove
  }

  /**
   * The change one triple makes to one document's data: `-` drops the tags
   * entry; otherwise the tag is removed when present and the mode is REMOVE,
   * and added in every other case, and the entry is rewritten duplicate-free.
   */
  function EditData(data: map<string, seq<string>>, e: TagEdit): (r: map<string, seq<string>>)
    ensures forall k :: k != TAGS_KEY ==> (k in r <==> k in data)
    ensures forall k :: k != TAGS_KEY && k in data ==> r[k] == data[k]
    ensures IsClear(e) ==> TAGS_KEY !in r
    ensures !IsClear(e) ==>
      && TAGS_KEY in r
      && Distinct(r[TAGS_KEY])
      && Elems(r[TAGS_KEY]) ==
           if e.mode == Remove && e.tag in StoredTags(data)
           then Elems(StoredTags(data)) - {e.tag}
           else Elems(StoredTags(data)) + {e.tag}
  {
    if IsClear(e) then data - {TAGS_KEY}
    else
      var existing := Dedup(StoredTags(data));
      assert e.tag in existing <==> e.tag in StoredTags(data) by {
        assert e.tag in existing <==> e.tag in Elems(existing);
        assert e.tag in StoredTags(data) <==> e.tag in Elems(StoredTags(data));
      }
      var updated :=
        if e.tag in existing && e.mode == Remove then Without(existing, e.tag)
        else if e.tag in existing then existing
        else (AppendNew(existing, e.tag); existing + [e.tag]);
      data[TAGS_KEY := updated]
  }

  /** Appending a string the list lacks keeps it duplicate-free and adds exactly that element. */
  lemma AppendNew(s: seq<string>, x: string)
    requires Distinct(s) && x !in s
    ensures Distinct(s + [x])
    ensures Elems(s + [x]) == Elems(s) + {x}
  {
    var r := s + [x];
    forall i, j | 0 <= i < j < |r| ensures r[i] != r[j] {
      if j == |s| {
        assert r[i] == s[i];
      } else {
        assert r[i] == s[i] && r[j] == s[j];
      }
    }
    assert forall y :: y in r <==> y in s || y == x;
  }

  /** The data map after a list of triples, applied in order. */
  function ApplyEdits(data: map<string, seq<string>>, edits: seq<TagEdit>): map<string, seq<string>> {
    if edits == [] then data
    else EditData(ApplyEdits(data, edits[..|edits| - 1]), edits[|edits| - 1])
  }

  /** Tag edits change only the "tags" entry; every other entry survives as it was. */
  lemma {:induction false} ApplyEditsKeepsOtherEntries(data: map<string, seq<string>>, edits: seq<TagEdit>, k: string)
    requires k != TAGS_KEY
    ensures k in ApplyEdits(data, edits) <==> k in data
    ensures k in data ==> ApplyEdits(data, edits)[k] == data[k]
  {
    if edits != [] {
      ApplyEditsKeepsOtherEntries(data, edits[..|edits| - 1], k);
    }
  }

  /** Whatever came before, a trailing `-` leaves no tags entry. */
  lemma ClearLast(data: map<string, seq<string>>, edits: seq<TagEdit>)
    requires edits != [] && IsClear(edits[|edits| - 1])
    ensures TAGS_KEY !in ApplyEdits(data, edits)
  {
  }

  /** The expression `-` parses to the single clearing triple. */
  lemma ParseDash()
    ensures ParseTags("-") == [TagEdit("", true, Remove)]
  {
    assert Lower("-") == "-";
    assert RunEnd("-", 0) == 1;
    assert "-"[..1] == "-";
    assert "-"[1..] == "";
    assert Words("-") == ["-"];
  }

  /** REMOVE of a tag the document lacks adds that tag (the source's else branch). */
  lemma RemoveOfAbsentTagAdds(data: map<string, seq<string>>, tag: string)
    requires tag != "" && tag !in StoredTags(data)
    ensures tag in Elems(EditData(data, TagEdit(tag, true, Remove))[TAGS_KEY])
  {
  }

  /** A one-triple list is that triple's edit. */
  lemma ApplyOne(data: map<string, seq<string>>, e: TagEdit)
    ensures ApplyEdits(data, [e]) == EditData(data, e)
  {
    assert [e][..0] == [];
  }

  /** A two-triple list is the first triple's edit followed by the second's. */
  lemma ApplyTwo(data: map<string, seq<string>>, e1: TagEdit, e2: TagEdit)
    ensures ApplyEdits(data, [e1, e2]) == EditData(EditData(data, e1), e2)
  {
    assert [e1, e2][..1] == [e1];
    ApplyOne(data, e1);
  }

  /** Adding a tag to an untagged document stores exactly that tag. */
  lemma AddToUntagged(data: map<string, seq<string>>, a: string)
    requires TAGS_KEY !in data && a != ""
    ensures Elems(StoredTags(EditData(data, TagEdit(a, true, Add)))) == {a}
  {
    assert Elems(StoredTags(data)) == {};
  }

  /** Adding a second tag stores both. */
  lemma AddSecond(data: map<string, seq<string>>, a: string, b: string)
    requires Elems(StoredTags(data)) == {a} && b != ""
    ensures Elems(StoredTags(EditData(data, TagEdit(b, true, Add)))) == {a, b}
  {
  }

  /** Removing one of two stored tags leaves the other. */
  lemma RemoveOneOfTwo(data: map<string, seq<string>>, a: string, b: string)
    requires Elems(StoredTags(data)) == {a, b} && a != "" && a != b
    ensures Elems(StoredTags(EditData(data, TagEdit(a, true, Remove)))) == {b}
  {
    assert a in StoredTags(data) by {
      assert a in Elems(StoredTags(data));
    }
    assert {a, b} - {a} == {b};
  }

  /** On an untagged document, adding `a` and `b` and then removing `a` leaves exactly {b}. */
  lemma AddTwoThenRemoveOne(data: map<string, seq<string>>, a: string, b: string)
    requires TAGS_KEY !in data
    requires a != "" && b != "" && a != b
    ensures var afterAdd := ApplyEdits(data, [TagEdit(a, true, Add), TagEdit(b, true, Add)]);
            Elems(StoredTags(ApplyEdits(afterAdd, [TagEdit(a, true, Remove)]))) == {b}
  {
    var e1, e2, e3 := TagEdit(a, true, Add), TagEdit(b, true, Add), TagEdit(a, true, Remove);
    var d1 := EditData(data, e1);
    AddToUntagged(data, a);
    var d2 := EditData(d1, e2);
    AddSecond(d1, a, b);
    ApplyTwo(data, e1, e2);
    RemoveOneOfTwo(d2, a, b);
    ApplyOne(d2, e3);
  }

  /** A non-empty tag of lower-case letters can be written in an expression, as an addition or a removal. */
  lemma LettersExpressible(tag: string, mode: Mode)
    requires |tag| > 0 && forall k :: 0 <= k < |tag| ==> 'a' <= tag[k] <= 'z'
    ensures Expressible(TagEdit(tag, true, mode))
  {
    assert tag[|tag| - 1] != '0';
  }

  /** Two additions render as their tags separated by one space. */
  lemma RenderTwoAdds(x: string, y: string)
    ensures Render([TagEdit(x, true, Add), TagEdit(y, true, Add)]) == x + " " + y
  {
    var adds := [TagEdit(x, true, Add), TagEdit(y, true, Add)];
    assert seq(|adds|, i requires 0 <= i < |adds| => RenderEdit(adds[i])) == [x, y] by {
      assert RenderEdit(adds[0]) == x && RenderEdit(adds[1]) == y;
    }
    assert Join([x, y]) == x + " " + Join([y]);
  }

  lemma ParseAlphaBeta()
    ensures ParseTags("alpha beta") == [TagEdit("alpha", true, Add), TagEdit("beta", true, Add)]
  {
    var adds := [TagEdit("alpha", true, Add), TagEdit("beta", true, Add)];
    assert forall i :: 0 <= i < |adds| ==> Expressible(adds[i]) by {
      LettersExpressible("alpha", Add);
      LettersExpressible("beta", Add);
    }
    assert Render(adds) == "alpha beta" by {
      RenderTwoAdds("alpha", "beta");
    }
    ParseRender(adds);
  }

  lemma ParseMinusAlpha()
    ensures ParseTags("-alpha") == [TagEdit("alpha", true, Remove)]
  {
    var removes := [TagEdit("alpha", true, Remove)];
    assert Render(removes) == "-alpha" by {
      assert RenderEdit(removes[0]) == "-alpha";
    }
    ParseRender(removes);
  }

  /** `tag(uid, "alpha beta")` then `tag(uid, "-alpha")` on an untagged document leaves exactly {"beta"}. */
  lemma AlphaBetaScenario(data: map<string, seq<string>>)
    requires TAGS_KEY !in data
    ensures Elems(StoredTags(ApplyEdits(ApplyEdits(data, ParseTags("alpha beta")), ParseTags("-alpha")))) == {"beta"}
  {
    ParseAlphaBeta();
    ParseMinusAlpha();
    AddTwoThenRemoveOne(data, "alpha", "beta");
  }

  // ---------------------------------------------------------------------
  // The version chain a tag expression is applied to

  function Retag(d: Document, edits: seq<TagEdit>): Document {
    d.(data := ApplyEdits(d.data, edits))
  }

  /** Retagging with one more edit applies that edit to the data of the shorter retagging. */
  lemma RetagStep(d: Document, edits: seq<TagEdit>, i: nat)
    requires i < |edits|
    ensures Retag(d, edits[..i + 1]) == Retag(d, edits[..i]).(data := EditData(Retag(d, edits[..i]).data, edits[i]))
  {
    assert edits[..i + 1][..i] == edits[..i];
  }

  /** The index after every document of the chain has had the edits applied to its data. */
  function Retagged(docs: Index, uid: string, vid: Option<string>, edits: seq<TagEdit>): (r: Index)
    ensures r.Keys == docs.Keys
    ensures forall id :: id in docs && !InChain(docs[id], uid, vid) ==> r[id] == docs[id]
    ensures forall id :: id in docs && InChain(docs[id], uid, vid) ==> r[id] == Retag(docs[id], edits)
  {
    map id | id in docs :: if InChain(docs[id], uid, vid) then Retag(docs[id], edits) else docs[id]
  }

  /**
   * Retagging keeps every document's identity, its field list and every
   * data entry other than "tags".
   */
  lemma RetaggedChangesOnlyTags(docs: Index, uid: string, vid: Option<string>, edits: seq<TagEdit>, id: string, k: string)
    requires id in docs && k != TAGS_KEY
    ensures var r := Retagged(docs, uid, vid, edits)[id];
            && r.id == docs[id].id
            && r.fields == docs[id].fields
            && (k in r.data <==> k in docs[id].data)
            && (k in docs[id].data ==> r.data[k] == docs[id].data[k])
  {
    ApplyEditsKeepsOtherEntries(docs[id].data, edits, k);
  }

  /** The expression `-` leaves no tags entry on any document of the chain. */
  lemma RetaggedDashClearsChain(docs: Index, uid: string, vid: Option<string>, id: string)
    requires id in docs && InChain(docs[id], uid, vid)
    ensures TAGS_KEY !in Retagged(docs, uid, vid, ParseTags("-"))[id].data
  {
    ParseDash();
    ClearLast(docs[id].data, ParseTags("-"));
  }
}
