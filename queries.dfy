/**
 * Query translation: the hand-written scanner of the web-style query
 * language, the structured (dictionary) query form, and the uid/vid
 * filter used to fetch a version chain. The engine's own query parser is
 * abstract: a term it would parse is kept as `Parsed(text, flags)`.
 */
module Queries {
  import opened Wrappers
  import opened Text
  import opened Documents

  /** Query-parser flags: FLAG_LOVEHATE, FLAG_PHRASE, FLAG_WILDCARD. */
  datatype Flag = LoveHate | Phrase | Wildcard

  datatype Scalar = Str(s: string) | Num(n: int)

  /** The engine's composite query tree. */
  datatype Query =
    | MatchAll
    | FieldMatch(name: string, value: Scalar)
    | Range(name: string, start: Scalar, end: Scalar)
    | And(clauses: seq<Query>)
    | Or(clauses: seq<Query>)
    | Filter(query: Query, filter: Query)
    | Parsed(text: string, flags: set<Flag>)

  /** The flags `parse_query` starts from. */
  const INITIAL_FLAGS: set<Flag> := {LoveHate}

  // ---------------------------------------------------------------------
  // parse_query

  /**
   * The first position in `[from, to)` of `s` that holds `c`: where
   * `re.search` finds a quote, and where `split(':', 1)` cuts a token.
   */
  function FindChar(s: string, c: char, from: nat, to: nat): (r: Option<nat>)
    requires to <= |s|
    ensures r.Some? ==> from <= r.value < to && s[r.value] == c
    decreases if from < to then to - from else 0
  {
    if from >= to then None
    else if s[from] == c then Some(from)
    else FindChar(s, c, from + 1, to)
  }

  /** The position found is the first one holding `c`; when none is found, no position in range holds it. */
  lemma {:induction false} FindCharFirst(s: string, c: char, from: nat, to: nat)
    requires to <= |s|
    ensures forall k :: from <= k < (match FindChar(s, c, from, to) case Some(p) => p case None => to) ==> s[k] != c
    decreases if from < to then to - from else 0
  {
    if from < to && s[from] != c {
      FindCharFirst(s, c, from + 1, to);
    }
  }

  /** Conversely, the first position holding `c` is the one found. */
  lemma {:induction false} FindCharAt(s: string, c: char, from: nat, to: nat, p: Option<nat>)
    requires to <= |s|
    requires p.Some? ==> from <= p.value < to && s[p.value] == c
    requires forall k :: from <= k < (if p.Some? then p.value else to) ==> s[k] != c
    ensures FindChar(s, c, from, to) == p
    decreases if from < to then to - from else 0
  {
    if from < to && s[from] != c {
      FindCharAt(s, c, from + 1, to, p);
    }
  }

  /** What one pass of the scanning loop produces, and the position the next pass starts at. */
  datatype StepResult = StepResult(clause: Query, flags: set<Flag>, next: nat)

  /** A word ending in `*`: a wildcard search. */
  predicate EndsWithStar(word: string) {
    |word| > 0 && word[|word| - 1] == '*'
  }

  /** The text a scanner clause searches for: a field match's string value, or an engine-parsed term's text. */
  function ClauseWord(c: Query): string {
    if c.FieldMatch? && c.value.Str? then c.value.s else if c.Parsed? then c.text else ""
  }

  /**
   * The clause for a scanned word: a field match for a non-empty field
   * name, which leaves the flags alone, and otherwise an engine-parsed
   * term, for which a word ending in `*` adds WILDCARD.
   */
  function Emit(field: Option<string>, word: string, flags: set<Flag>, next: nat): (r: StepResult)
    ensures r.next == next
    ensures field.Some? && field.value != "" ==> r.clause == FieldMatch(field.value, Str(word)) && r.flags == flags
    ensures !(field.Some? && field.value != "") ==> r.clause == Parsed(word, r.flags)
    ensures Wildcard in r.flags <==> Wildcard in flags || (r.clause.Parsed? && EndsWithStar(word))
    ensures r.flags - {Wildcard} == flags - {Wildcard}
  {
    if field.Some? && field.value != "" then StepResult(FieldMatch(field.value, Str(word)), flags, next)
    else
      var f := if EndsWithStar(word) then flags + {Wildcard} else flags;
      StepResult(Parsed(word, f), f, next)
  }

  /**
   * One pass of the loop, given where the token at `start` ends, where its
   * first `:` is, and where the quote closing a phrase is. A token with a
   * `:` is cut there: the part before names the field when it is
   * registered, and the word is the part after, whether or not it is. A
   * phrase runs from the start of the token (field prefix included)
   * through its closing quote and sets PHRASE; the next pass starts two
   * characters after that quote, and otherwise two after the token. The
   * clause is a field match for a non-empty field name and otherwise an
   * engine-parsed term, for which a word ending in `*` sets WILDCARD.
   */
  function StepWith(query: string, start: nat, flags: set<Flag>, fields: set<string>,
                    end: nat, colon: Option<nat>, quote: Option<nat>): (r: StepResult)
    requires start <= end <= |query|
    requires colon.Some? ==> start <= colon.value < end
    requires quote.Some? ==> end < quote.value < |query|
    ensures start < r.next <= |query| + 1
    ensures flags <= r.flags
    ensures r.clause.Parsed? || r.clause.FieldMatch?
    ensures r.clause.Parsed? ==> r.clause.flags == r.flags
    ensures r.clause.FieldMatch? ==> r.clause.name in fields && r.clause.name != "" && r.clause.value.Str?
    ensures r.clause.FieldMatch? <==> colon.Some? && query[start..colon.value] in fields && query[start..colon.value] != ""
    ensures r.clause.FieldMatch? ==> colon.Some? && r.clause.name == query[start..colon.value]
    ensures quote.Some? ==> r.next == quote.value + 2 && ClauseWord(r.clause) == query[start..quote.value + 1]
    ensures quote.None? ==> r.next == end + 1
    ensures quote.None? ==> ClauseWord(r.clause) == if colon.Some? then query[colon.value + 1..end] else query[start..end]
    ensures Phrase in r.flags <==> Phrase in flags || quote.Some?
    ensures LoveHate in r.flags <==> LoveHate in flags
    ensures Wildcard in r.flags <==> Wildcard in flags || (r.clause.Parsed? && EndsWithStar(ClauseWord(r.clause)))
  {
    var field := if colon.Some? && query[start..colon.value] in fields then Some(query[start..colon.value]) else None;
    var wordStart := if colon.Some? then colon.value + 1 else start;
    var word := if quote.Some? then query[start..quote.value + 1] else query[wordStart..end];
    var flags' := if quote.Some? then flags + {Phrase} else flags;
    var next := if quote.Some? then quote.value + 2 else end + 1;
    Emit(field, word, flags', next)
  }

  /**
   * The quote that closes a phrase: a word (the token after its first
   * `:`, if any) opening with `"` looks for a quote from two characters
   * after the token on.
   */
  function PhraseQuote(query: string, start: nat, end: nat, colon: Option<nat>): (q: Option<nat>)
    requires start <= end <= |query|
    ensures q.Some? ==> OpensPhrase(query, start, end, colon)
    ensures q.Some? ==> end < q.value < |query| && query[q.value] == '"'
    ensures q.Some? ==> forall k :: end + 1 <= k < q.value ==> query[k] != '"'
    ensures q.None? && OpensPhrase(query, start, end, colon) ==> forall k :: end + 1 <= k < |query| ==> query[k] != '"'
  {
    if OpensPhrase(query, start, end, colon) then
      FindCharFirst(query, '"', end + 1, |query|);
      FindChar(query, '"', end + 1, |query|)
    else None
  }

  /** The word of the token ending at `end` (the part after its first `:`, if any) opens with `"`. */
  predicate OpensPhrase(query: string, start: nat, end: nat, colon: Option<nat>)
    requires end <= |query|
  {
    var wordStart := if colon.Some? then colon.value + 1 else start;
    wordStart < end && query[wordStart] == '"'
  }

  /**
   * One pass of the loop at position `start`: the token is the
   * non-whitespace run there, and the pass is `StepWith` on where that
   * run ends, its first `:` and the quote closing a phrase.
   */
  function Step(query: string, start: nat, flags: set<Flag>, fields: set<string>): (r: StepResult)
    requires start < |query| && !IsSpace(query[start])
    ensures start < r.next <= |query| + 1
  {
    var end := RunEnd(query, start);
    var colon := FindChar(query, ':', start, end);
    StepWith(query, start, flags, fields, end, colon, PhraseQuote(query, start, end, colon))
  }

  /**
   * The clauses the scanning loop collects from position `start` on, with
   * `flags` accumulated so far: none at the end of the query or at a
   * whitespace character, otherwise one per pass.
   */
  function ScanFrom(query: string, start: nat, flags: set<Flag>, fields: set<string>): seq<Query>
    decreases |query| - start
  {
    if start >= |query| || IsSpace(query[start]) then []
    else
      var r := Step(query, start, flags, fields);
      [r.clause] + ScanFrom(query, r.next, r.flags, fields)
  }

  /** The clauses `parse_query` collects from a whole query. */
  function Scan(query: string, fields: set<string>): seq<Query> {
    ScanFrom(query, 0, INITIAL_FLAGS, fields)
  }

  /**
   * `parse_query`: scans the query left to right, one token per pass, and
   * returns the AND of the clauses `Scan` collects.
   */
  method ParseQuery(query: string, fields: set<string>) returns (q: Query)
    ensures q == And(Scan(query, fields))
  {
    var flags := INITIAL_FLAGS;
    var start := 0;
    var end := |query|;
    var queries: seq<Query> := [];
    while start < end
      invariant start <= end + 1
      invariant queries + ScanFrom(query, start, flags, fields) == Scan(query, fields)
      decreases end + 1 - start
    {
      if IsSpace(query[start]) {
        break;
      }
      var r := Step(query, start, flags, fields);
      queries := queries + [r.clause];
      flags := r.flags;
      start := r.next;
    }
    q := And(queries);
  }

  /** Every clause is a field match on a registered, non-empty field name or an engine-parsed term. */
  predicate ClausesWellFormed(cs: seq<Query>, fields: set<string>) {
    forall c :: c in cs ==> (c.Parsed? || c.FieldMatch?) && (c.FieldMatch? ==> c.name in fields && c.name != "")
  }

  /** Every engine-parsed term carries at least `flags`. */
  predicate FlagsAtLeast(cs: seq<Query>, flags: set<Flag>) {
    forall i :: 0 <= i < |cs| && cs[i].Parsed? ==> flags <= cs[i].flags
  }

  /** The flags of later engine-parsed terms include those of earlier ones. */
  predicate FlagsGrow(cs: seq<Query>) {
    forall i, j :: 0 <= i < j < |cs| && cs[i].Parsed? && cs[j].Parsed? ==> cs[i].flags <= cs[j].flags
  }

  lemma {:induction false} ScanClauseKinds(query: string, start: nat, flags: set<Flag>, fields: set<string>)
    ensures ClausesWellFormed(ScanFrom(query, start, flags, fields), fields)
    decreases |query| - start
  {
    if start < |query| && !IsSpace(query[start]) {
      var r := Step(query, start, flags, fields);
      ScanClauseKinds(query, r.next, r.flags, fields);
    }
  }

  /**
   * Flags are never cleared: every engine-parsed term carries at least the
   * flags the scan started from, and a later term's flags include an
   * earlier term's.
   */
  lemma {:induction false} ScanFlagsGrow(query: string, start: nat, flags: set<Flag>, fields: set<string>)
    ensures FlagsAtLeast(ScanFrom(query, start, flags, fields), flags)
    ensures FlagsGrow(ScanFrom(query, start, flags, fields))
    decreases |query| - start
  {
    if start < |query| && !IsSpace(query[start]) {
      var r := Step(query, start, flags, fields);
      var rest := ScanFrom(query, r.next, r.flags, fields);
      ScanFlagsGrow(query, r.next, r.flags, fields);
      var cs := [r.clause] + rest;
      assert ScanFrom(query, start, flags, fields) == cs;
      forall i | 0 < i < |cs| ensures cs[i] == rest[i - 1] {
      }
      assert FlagsAtLeast(cs, r.flags);
      assert FlagsGrow(cs);
    }
  }

  /** A plain word: a word with no `:`, not opening with `"` and not ending in `*`. */
  predicate PlainWord(w: string) {
    IsWord(w) && ':' !in w && w[0] != '"' && w[|w| - 1] != '*'
  }

  /** The run `[start, end)` of `query` is a plain word followed by whitespace or the end of the query. */
  predicate PlainWordAt(query: string, start: nat, end: nat) {
    start < end <= |query| && (end == |query| || IsSpace(query[end])) && PlainWord(query[start..end])
  }

  /** One pass over a plain word `w` at `start` reads it as an engine-parsed term and skips the character after it. */
  lemma StepOfPlainWord(query: string, start: nat, w: string, flags: set<Flag>, fields: set<string>)
    requires PlainWordAt(query, start, start + |w|) && query[start..start + |w|] == w
    ensures !IsSpace(query[start])
    ensures Step(query, start, flags, fields) == StepResult(Parsed(w, flags), flags, start + |w| + 1)
  {
    var end := start + |w|;
    forall k | start <= k < end ensures !IsSpace(query[k]) && query[k] != ':' {
      assert query[k] == w[k - start];
    }
    RunEndAt(query, start, end);
    FindCharAt(query, ':', start, end, None);
    assert PhraseQuote(query, start, end, None) == None by {
      assert query[start] == w[0];
    }
    assert Step(query, start, flags, fields) == StepWith(query, start, flags, fields, end, None, None);
    assert StepWith(query, start, flags, fields, end, None, None) == StepResult(Parsed(w, flags), flags, end + 1) by {
      assert w[|w| - 1] != '*';
    }
  }

  /** Scanning at a plain word `w` yields its engine-parsed term and resumes one character after it. */
  lemma ScanOverWord(query: string, start: nat, w: string, flags: set<Flag>, fields: set<string>)
    requires PlainWordAt(query, start, start + |w|) && query[start..start + |w|] == w
    ensures ScanFrom(query, start, flags, fields) == [Parsed(w, flags)] + ScanFrom(query, start + |w| + 1, flags, fields)
  {
    StepOfPlainWord(query, start, w, flags, fields);
    ScanFromStep(query, start, flags, fields);
  }

  /** At a token start, the scan is the pass's clause followed by the scan from where the pass resumes. */
  lemma ScanFromStep(query: string, start: nat, flags: set<Flag>, fields: set<string>)
    requires start < |query| && !IsSpace(query[start])
    ensures var r := Step(query, start, flags, fields);
      ScanFrom(query, start, flags, fields) == [r.clause] + ScanFrom(query, r.next, r.flags, fields)
  {
  }

  /** Where `query` holds joined words from `start` on, the first word is a plain word at `start`, and the rest follow it. */
  lemma JoinedHead(query: string, start: nat, ws: seq<string>)
    requires start <= |query| && query[start..] == Join(ws)
    requires ws != [] && forall i :: 0 <= i < |ws| ==> PlainWord(ws[i])
    ensures PlainWordAt(query, start, start + |ws[0]|) && query[start..start + |ws[0]|] == ws[0]
    ensures |ws| > 1 ==> start + |ws[0]| + 1 <= |query| && query[start + |ws[0]| + 1..] == Join(ws[1..])
    ensures |ws| == 1 ==> start + |ws[0]| == |query|
  {
    var w := ws[0];
    var end := start + |w|;
    if |ws| > 1 {
      assert Join(ws) == w + (" " + Join(ws[1..]));
      assert query[start..end] == query[start..][..|w|];
      assert query[end] == query[start..][|w|];
      assert query[end + 1..] == query[start..][|w| + 1..];
    } else {
      assert query[start..end] == query[start..];
    }
  }

  /** One engine-parsed term per word, in order, all with the same flags. */
  function ParsedTerms(ws: seq<string>, flags: set<Flag>): (r: seq<Query>)
    ensures |r| == |ws|
    ensures forall i :: 0 <= i < |ws| ==> r[i] == Parsed(ws[i], flags)
  {
    if ws == [] then [] else [Parsed(ws[0], flags)] + ParsedTerms(ws[1..], flags)
  }

  /**
   * From `start` on, `query` holds the words `ws`, each followed by one
   * space except the last, which ends the query.
   */
  predicate WordsAt(query: string, start: nat, ws: seq<string>)
    decreases |ws|
  {
    if ws == [] then start == |query|
    else
      var end := start + |ws[0]|;
      && end <= |query| && query[start..end] == ws[0]
      && (if |ws| == 1 then end == |query| else end < |query| && query[end] == ' ' && WordsAt(query, end + 1, ws[1..]))
  }

  /** Joined words are laid out as `WordsAt` describes. */
  lemma {:induction false} JoinedWordsAt(query: string, start: nat, ws: seq<string>)
    requires start <= |query| && query[start..] == Join(ws)
    requires forall i :: 0 <= i < |ws| ==> PlainWord(ws[i])
    ensures WordsAt(query, start, ws)
    decreases |ws|
  {
    if ws != [] {
      JoinedHead(query, start, ws);
      if |ws| > 1 {
        JoinedWordsAt(query, start + |ws[0]| + 1, ws[1..]);
      }
    }
  }

  /** The first of the laid-out words is a plain word at `start`. */
  lemma WordsAtHead(query: string, start: nat, ws: seq<string>)
    requires WordsAt(query, start, ws) && ws != [] && PlainWord(ws[0])
    ensures PlainWordAt(query, start, start + |ws[0]|)
  {
  }

  /** The first laid-out word sits at `start`; the rest follow one character later, or the query ends. */
  lemma LaidOutHead(query: string, start: nat, ws: seq<string>)
    requires WordsAt(query, start, ws) && ws != []
    ensures start + |ws[0]| <= |query| && query[start..start + |ws[0]|] == ws[0]
    ensures |ws| > 1 ==> WordsAt(query, start + |ws[0]| + 1, ws[1..])
    ensures |ws| == 1 ==> start + |ws[0]| == |query|
  {
  }

  /** Plain words laid out from `start` on give one engine-parsed term each, in order. */
  lemma {:induction false} ScanJoinedWords(query: string, start: nat, ws: seq<string>, flags: set<Flag>, fields: set<string>)
    requires WordsAt(query, start, ws)
    requires forall i :: 0 <= i < |ws| ==> PlainWord(ws[i])
    ensures ScanFrom(query, start, flags, fields) == ParsedTerms(ws, flags)
    decreases |ws|
  {
    if ws != [] {
      var w := ws[0];
      var next := start + |w| + 1;
      LaidOutHead(query, start, ws);
      WordsAtHead(query, start, ws);
      ScanOverWord(query, start, w, flags, fields);
      assert ScanFrom(query, start, flags, fields) == [Parsed(w, flags)] + ScanFrom(query, next, flags, fields);
      if |ws| > 1 {
        assert forall i :: 0 <= i < |ws[1..]| ==> PlainWord(ws[1..][i]) by {
          assert forall i :: 0 <= i < |ws[1..]| ==> ws[1..][i] == ws[i + 1];
        }
        ScanJoinedWords(query, next, ws[1..], flags, fields);
      }
      assert ParsedTerms(ws, flags) == [Parsed(w, flags)] + ParsedTerms(ws[1..], flags);
    }
  }

  /** A query of plain words separated by single spaces gives one engine-parsed term per word, in order. */
  lemma ScanPlainWords(ws: seq<string>, fields: set<string>)
    requires forall i :: 0 <= i < |ws| ==> PlainWord(ws[i])
    ensures Scan(Join(ws), fields) == ParsedTerms(ws, INITIAL_FLAGS)
  {
    JoinedWordsAt(Join(ws), 0, ws);
    ScanJoinedWords(Join(ws), 0, ws, INITIAL_FLAGS, fields);
  }

  /** Scanning stops at the first token start that is whitespace: after two spaces nothing more is read. */
  lemma ScanStopsAtDoubleSpace(w: string, rest: string, fields: set<string>)
    requires PlainWord(w)
    ensures Scan(w + "  " + rest, fields) == [Parsed(w, INITIAL_FLAGS)]
  {
    var query := w + "  " + rest;
    assert query[0..|w|] == w;
    assert query[|w|] == ' ' && query[|w| + 1] == ' ';
    ScanOverWord(query, 0, w, INITIAL_FLAGS, fields);
  }

  /** A field-prefixed plain word is one whitespace-free token. */
  lemma PrefixedRunEnd(name: string, w: string)
    requires forall k :: 0 <= k < |name| ==> !IsSpace(name[k])
    requires PlainWord(w)
    ensures var query := name + ":" + w; RunEnd(query, 0) == |query|
  {
    var query := name + ":" + w;
    assert IsWord(query) by {
      forall k | 0 <= k < |query| ensures !IsSpace(query[k]) {
        if k < |name| { assert query[k] == name[k]; }
        else if k > |name| { assert query[k] == w[k - |name| - 1]; }
      }
    }
    RunEndOfWord([], query, []);
    assert [] + query + [] == query;
  }

  /** The first `:` of a field-prefixed word is the one after the field name. */
  lemma PrefixedColon(name: string, w: string)
    requires ':' !in name
    ensures var query := name + ":" + w; FindChar(query, ':', 0, |query|) == Some(|name|)
  {
    var query := name + ":" + w;
    forall k | 0 <= k < |name| ensures query[k] != ':' {
      assert query[k] == name[k];
    }
    FindCharAt(query, ':', 0, |query|, Some(|name|));
  }

  /**
   * `name:word`: the prefix is always cut off; the result is a field match
   * exactly when `name` is a registered, non-empty field name, and an
   * engine-parsed term of the bare word otherwise.
   */
  lemma ScanPrefixedWord(name: string, w: string, fields: set<string>)
    requires ':' !in name && forall k :: 0 <= k < |name| ==> !IsSpace(name[k])
    requires PlainWord(w)
    ensures Scan(name + ":" + w, fields) ==
      if name in fields && name != "" then [FieldMatch(name, Str(w))] else [Parsed(w, INITIAL_FLAGS)]
  {
    var query := name + ":" + w;
    PrefixedRunEnd(name, w);
    PrefixedColon(name, w);
    assert query[0..|name|] == name;
    assert PhraseQuote(query, 0, |query|, Some(|name|)) == None;
    assert query[|name| + 1..|query|] == w;
    assert query[|name| + 1] == w[0];
    assert ScanFrom(query, |query| + 1, INITIAL_FLAGS, fields) == [];
  }

  /** The phrase example below: its first token, through the closing quote, and the whole query. */
  const TITLE_PHRASE: string := "title:\"hello world\""
  const TITLE_QUERY: string := TITLE_PHRASE + " -spam"

  lemma TitleRunEnd()
    ensures RunEnd(TITLE_QUERY, 0) == 12
  {
    var word, rest := "title:\"hello", " world\" -spam";
    RunEndOfWord([], word, rest);
    assert [] + word + rest == TITLE_QUERY;
  }

  lemma TitleColon()
    ensures FindChar(TITLE_QUERY, ':', 0, 12) == Some(5)
  {
    assert TITLE_QUERY[..6] == "title:";
    FindCharAt(TITLE_QUERY, ':', 0, 12, Some(5));
  }

  lemma TitleQuote()
    ensures FindChar(TITLE_QUERY, '"', 13, |TITLE_QUERY|) == Some(18)
  {
    assert TITLE_QUERY[13..19] == "world\"";
    FindCharAt(TITLE_QUERY, '"', 13, |TITLE_QUERY|, Some(18));
  }

  /** The first pass over the example consumes the phrase and the space after it. */
  lemma TitleFirstStep(fields: set<string>)
    requires "title" in fields
    ensures Step(TITLE_QUERY, 0, INITIAL_FLAGS, fields)
         == StepResult(FieldMatch("title", Str(TITLE_PHRASE)), {LoveHate, Phrase}, 20)
  {
    TitleRunEnd();
    TitleColon();
    TitleQuote();
    assert TITLE_QUERY[0..5] == "title";
    assert PhraseQuote(TITLE_QUERY, 0, 12, Some(5)) == Some(18);
    assert TITLE_QUERY[6] == '"';
    assert TITLE_QUERY[0..19] == TITLE_PHRASE;
  }

  /**
   * The query `title:"hello world" -spam` with `title` registered: a field
   * match whose value is sliced from the start of the token, prefix and
   * quotes included, and an engine-parsed `-spam` that inherits PHRASE.
   */
  lemma TitlePhraseExample(fields: set<string>)
    requires "title" in fields
    ensures Scan(TITLE_QUERY, fields)
         == [FieldMatch("title", Str(TITLE_PHRASE)), Parsed("-spam", {LoveHate, Phrase})]
  {
    assert ScanFrom(TITLE_QUERY, 20, {LoveHate, Phrase}, fields) == [Parsed("-spam", {LoveHate, Phrase})] by {
      assert TITLE_QUERY[20..25] == "-spam";
      ScanOverWord(TITLE_QUERY, 20, "-spam", {LoveHate, Phrase}, fields);
    }
    TitleFirstStep(fields);
  }

  // ---------------------------------------------------------------------
  // Structured queries (the dictionary branch of `search`)

  /** A dictionary value: a scalar, a list of scalars, or a nested dictionary (a range). */
  datatype QValue = Scalar(v: Scalar) | List(items: seq<Scalar>) | Mapping(entries: map<string, Scalar>)

  /** The `query` argument of `search`: None, a string, or a dictionary. */
  datatype SearchInput = NoQuery | TextQuery(text: string) | DictQuery(entries: map<string, QValue>)

  datatype QueryError = QueryNotText | NoBackingStore

  /** `sys.maxint`, the default upper end of a range (the 32-bit value). */
  const SYS_MAXINT: int := 2147483647

  const QUERY_KEY: string := "query"

  /** Python truth value of a dictionary value. */
  predicate Truthy(v: QValue) {
    match v
    case Scalar(Str(s)) => s != ""
    case Scalar(Num(n)) => n != 0
    case List(items) => items != []
    case Mapping(m) => m != map[]
  }

  /** Python truth value of the `query` argument. */
  predicate InputTruthy(input: SearchInput) {
    match input
    case NoQuery => false
    case TextQuery(s) => s != ""
    case DictQuery(m) => m != map[]
  }

  /**
   * The clause for one dictionary entry: a nested dictionary is a range
   * (start defaulting to 0, end to sys.maxint), a list an OR of field
   * matches, one per item in order, and a scalar a field match.
   */
  function EntryClause(key: string, v: QValue): (q: Query)
    ensures v.Mapping? <==> q.Range?
    ensures v.Mapping? ==>
              && q.name == key
              && q.start == (if "start" in v.entries then v.entries["start"] else Num(0))
              && q.end == (if "end" in v.entries then v.entries["end"] else Num(SYS_MAXINT))
    ensures v.List? ==>
              && q.Or? && |q.clauses| == |v.items|
              && forall i :: 0 <= i < |v.items| ==> q.clauses[i] == FieldMatch(key, v.items[i])
    ensures v.Scalar? ==> q == FieldMatch(key, v.v)
  {
    match v
    case Mapping(m) =>
      Range(key, if "start" in m then m["start"] else Num(0), if "end" in m then m["end"] else Num(SYS_MAXINT))
    case List(items) => Or(seq(|items|, i requires 0 <= i < |items| => FieldMatch(key, items[i])))
    case Scalar(s) => FieldMatch(key, s)
  }

  /** The clauses of the entries, in the order the dictionary is iterated. */
  function EntryClauses(m: map<string, QValue>, order: seq<string>): seq<Query>
    requires forall i :: 0 <= i < |order| ==> order[i] in m
  {
    seq(|order|, i requires 0 <= i < |order| => EntryClause(order[i], m[order[i]]))
  }

  /** `order` lists every key of `m` exactly once. */
  predicate IsOrderOf<V>(order: seq<string>, m: map<string, V>) {
    && (forall i :: 0 <= i < |order| ==> order[i] in m)
    && (forall k :: k in m ==> k in order)
    && (forall i, j :: 0 <= i < j < |order| ==> order[i] != order[j])
  }

  /** An iteration order has one position per key. */
  lemma {:induction false} OrderLength<V>(order: seq<string>, m: map<string, V>)
    requires IsOrderOf(order, m)
    ensures |order| == |m|
  {
    if order == [] {
      assert forall k :: k !in m;
      assert m == map[];
    } else {
      var k := order[0];
      var m' := m - {k};
      forall i | 0 <= i < |order[1..]| ensures order[1..][i] in m' {
        assert order[1..][i] == order[i + 1];
      }
      forall k' | k' in m' ensures k' in order[1..] {
        var i :| 0 <= i < |order| && order[i] == k';
        assert order[1..][i - 1] == k';
      }
      OrderLength(order[1..], m');
      assert m'.Keys == m.Keys - {k};
    }
  }

  /**
   * `r` is the query `search` builds from its `query` argument, `order`
   * the iteration order of the dictionary entries. A falsy argument
   * matches everything; a string is scanned; a dictionary loses its `query`
   * entry, whose truthy string value is scanned into the first clause (a
   * truthy non-string is a type error), and if nothing is left the query
   * matches everything; otherwise each remaining entry adds its clause in
   * the iteration order and all are ANDed.
   */
  predicate Translates(input: SearchInput, fields: set<string>, r: Result<Query, QueryError>, order: seq<string>) {
    && (!InputTruthy(input) ==> r == Ok(MatchAll))
    && (input.TextQuery? && input.text != "" ==> r == Ok(And(Scan(input.text, fields))))
    && (input.DictQuery? && input.entries != map[] ==>
          var rest := input.entries - {QUERY_KEY};
          var qv := if QUERY_KEY in input.entries then input.entries[QUERY_KEY] else Scalar(Num(0));
          if Truthy(qv) && !(qv.Scalar? && qv.v.Str?) then r == Err(QueryNotText)
          else
            var parsed := if Truthy(qv) then [And(Scan(qv.v.s, fields))] else [];
            if rest == map[] && parsed == [] then r == Ok(MatchAll)
            else IsOrderOf(order, rest) && r == Ok(And(parsed + EntryClauses(rest, order))))
  }

  /**
   * The query translation of `search`: pops the `query` entry of a
   * dictionary, scans it, and appends one clause per remaining entry while
   * iterating the dictionary.
   */
  method TranslateQuery(input: SearchInput, fields: set<string>) returns (r: Result<Query, QueryError>, order: seq<string>)
    ensures Translates(input, fields, r, order)
  {
    order := [];
    if !InputTruthy(input) {
      return Ok(MatchAll), order;
    }
    if input.TextQuery? {
      var q := ParseQuery(input.text, fields);
      return Ok(q), order;
    }
    var query := input.entries;
    var queries: seq<Query> := [];
    var qv := if QUERY_KEY in query then query[QUERY_KEY] else Scalar(Num(0));
    query := query - {QUERY_KEY};
    if Truthy(qv) {
      if !(qv.Scalar? && qv.v.Str?) {
        return Err(QueryNotText), order;
      }
      var parsed := ParseQuery(qv.v.s, fields);
      queries := queries + [parsed];
    }
    if query == map[] && queries == [] {
      return Ok(MatchAll), order;
    }
    assert queries == if Truthy(qv) then [And(Scan(qv.v.s, fields))] else [];
    assert query == input.entries - {QUERY_KEY};
    var clauses;
    clauses, order := CollectEntries(query);
    r := Ok(And(queries + clauses));
  }

  /**
   * The loop of `search` over the dictionary entries: one clause per entry,
   * in the order the entries are visited.
   */
  method CollectEntries(query: map<string, QValue>) returns (clauses: seq<Query>, order: seq<string>)
    ensures IsOrderOf(order, query)
    ensures clauses == EntryClauses(query, order)
  {
    clauses, order := [], [];
    var remaining := query.Keys;
    while remaining != {}
      invariant remaining <= query.Keys
      invariant forall i :: 0 <= i < |order| ==> order[i] in query && order[i] !in remaining
      invariant forall k :: k in query ==> k in order || k in remaining
      invariant forall i, j :: 0 <= i < j < |order| ==> order[i] != order[j]
      invariant clauses == EntryClauses(query, order)
      decreases remaining
    {
      var k :| k in remaining;
      clauses := clauses + [EntryClause(k, query[k])];
      order := order + [k];
      remaining := remaining - {k};
    }
  }

  /**
   * The dictionary {"category": ["a", "b"], "date": {"start": 0, "end": 100}}
   * gives, in either iteration order, the AND of (category = a OR category = b)
   * and the range of date over [0, 100].
   */
  lemma StructuredExample(order: seq<string>)
    requires IsOrderOf(order, map["category" := List([Str("a"), Str("b")]),
                                  "date" := Mapping(map["start" := Num(0), "end" := Num(100)])])
    ensures var m := map["category" := List([Str("a"), Str("b")]),
                         "date" := Mapping(map["start" := Num(0), "end" := Num(100)])];
            var cs := EntryClauses(m, order);
            |cs| == 2
            && Or([FieldMatch("category", Str("a")), FieldMatch("category", Str("b"))]) in cs
            && Range("date", Num(0), Num(100)) in cs
  {
    var m := map["category" := List([Str("a"), Str("b")]),
                 "date" := Mapping(map["start" := Num(0), "end" := Num(100)])];
    assert "category" in order && "date" in order;
    OrderLength(order, m);
    assert m.Keys == {"category", "date"};
    var cs := EntryClauses(m, order);
    var ors := Or([FieldMatch("category", Str("a")), FieldMatch("category", Str("b"))]);
    var ic :| 0 <= ic < 2 && order[ic] == "category";
    var id :| 0 <= id < 2 && order[id] == "date";
    assert cs[ic] == EntryClause("category", m["category"]);
    assert EntryClause("category", m["category"]) == ors;
    assert cs[id] == Range("date", Num(0), Num(100));
  }

  // ---------------------------------------------------------------------
  // Version-chain look-up (get_by_uid_prop) and result ordering

  /** A search as handed to the engine: the query, the index range and the sort key. */
  datatype SearchRequest = SearchRequest(query: Query, startIndex: int, endIndex: int, sortBy: OrderBy)

  /** The `order_by` argument: none, one key, or a list of keys. */
  datatype OrderBy = Unordered | ByKey(key: string) | ByKeys(keys: seq<string>)

  /** The engine sorts on one key only: a non-empty list is cut to its first key. */
  function SortKey(orderBy: OrderBy): (r: OrderBy)
    ensures orderBy.ByKeys? && orderBy.keys != [] ==> r == ByKey(orderBy.keys[0])
    ensures !(orderBy.ByKeys? && orderBy.keys != []) ==> r == orderBy
  {
    if orderBy.ByKeys? && orderBy.keys != [] then ByKey(orderBy.keys[0]) else orderBy
  }

  /**
   * The version filter for `rev`: none without a revision, the backing
   * store's tip for "tip" (an error when no store is bound), else `rev` itself.
   */
  function ResolveRev(uid: string, rev: Option<string>, store: Option<BackingStore>): (r: Result<Option<string>, QueryError>)
    ensures r.Err? <==> rev == Some("tip") && store.None?
    ensures r.Ok? && rev.None? ==> r.value.None?
    ensures r.Ok? && rev.Some? ==> r.value == Some(if rev.value == "tip" then store.value.tip(uid) else rev.value)
  {
    match rev
    case None => Ok(None)
    case Some(v) =>
      if v == "tip" then
        if store.None? then Err(NoBackingStore) else Ok(Some(store.value.tip(uid)))
      else Ok(Some(v))
  }

  /** Exact-term matching of a query made of field matches on strings, filters, ANDs and ORs. */
  predicate IsExact(q: Query) {
    match q
    case MatchAll => true
    case FieldMatch(_, v) => v.Str?
    case Filter(a, b) => IsExact(a) && IsExact(b)
    case And(cs) => forall c :: c in cs ==> IsExact(c)
    case Or(cs) => forall c :: c in cs ==> IsExact(c)
    case _ => false
  }

  predicate ExactMatches(d: Document, q: Query)
    requires IsExact(q)
  {
    match q
    case MatchAll => true
    case FieldMatch(n, v) => Field(n, v.s) in d.fields
    case Filter(a, b) => ExactMatches(d, a) && ExactMatches(d, b)
    case And(cs) => forall c :: c in cs ==> ExactMatches(d, c)
    case Or(cs) => exists c :: c in cs && ExactMatches(d, c)
  }

  /**
   * `get_by_uid_prop`: a field match on the uid, filtered by the resolved
   * version when a revision is given, fetching results 0 to 1000 sorted by
   * descending vid. The query selects exactly the documents of the chain.
   */
  function UidQuery(uid: string, rev: Option<string>, store: Option<BackingStore>): (r: Result<SearchRequest, QueryError>)
    ensures r.Ok? <==> ResolveRev(uid, rev, store).Ok?
    ensures r.Ok? ==> r.value.startIndex == 0 && r.value.endIndex == 1000 && r.value.sortBy == ByKey("-vid")
    ensures r.Ok? ==> IsExact(r.value.query)
    ensures r.Ok? ==> forall d :: ExactMatches(d, r.value.query) <==> InChain(d, uid, ResolveRev(uid, rev, store).value)
  {
    match ResolveRev(uid, rev, store)
    case Err(e) => Err(e)
    case Ok(vid) =>
      var byUid := FieldMatch("uid", Str(uid));
      var q := if vid.None? then byUid else Filter(byUid, FieldMatch("vid", Str(vid.value)));
      Ok(SearchRequest(q, 0, 1000, ByKey("-vid")))
  }
}
