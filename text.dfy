/**
 * Character-level helpers shared by the tag parser and the query scanner:
 * the whitespace class matched by `\s` and used by `str.split()`, ASCII
 * lower-casing, and splitting a string into whitespace-separated words.
 */
module Text {

  /** The six ASCII whitespace characters: space, and tab, LF, VT, FF, CR (the contiguous codes 9 to 13). */
  predicate IsSpace(c: char) {
    c == ' ' || '\t' <= c <= '\r'
  }

  function LowerChar(c: char): char {
    if 'A' <= c <= 'Z' then (c as int + 32) as char else c
  }

  /** `str.lower()` restricted to ASCII letters. */
  function Lower(s: string): (r: string)
    ensures |r| == |s|
  {
    seq(|s|, i requires 0 <= i < |s| => LowerChar(s[i]))
  }

  predicate IsLower(s: string) {
    forall i :: 0 <= i < |s| ==> LowerChar(s[i]) == s[i]
  }

  /** A word: a non-empty run of non-whitespace characters. */
  predicate IsWord(w: string) {
    |w| > 0 && forall i :: 0 <= i < |w| ==> !IsSpace(w[i])
  }

  /**
   * Where the run of non-whitespace characters starting at `i` ends: the
   * end of a `\S+` match at `i`, or `i` itself when `s[i]` is whitespace.
   */
  function RunEnd(s: string, i: nat): (e: nat)
    requires i <= |s|
    ensures i <= e <= |s|
    ensures e < |s| ==> IsSpace(s[e])
    decreases |s| - i
  {
    if i == |s| || IsSpace(s[i]) then i else RunEnd(s, i + 1)
  }

  /** The run `RunEnd` measures holds no whitespace. */
  lemma {:induction false} RunEndNoSpace(s: string, i: nat)
    requires i <= |s|
    ensures forall k :: i <= k < RunEnd(s, i) ==> !IsSpace(s[k])
    decreases |s| - i
  {
    if i < |s| && !IsSpace(s[i]) {
      RunEndNoSpace(s, i + 1);
    }
  }

  /** A run of non-whitespace from `i` to `e` that whitespace or the end of `s` follows is read whole. */
  lemma {:induction false} RunEndAt(s: string, i: nat, e: nat)
    requires i <= e <= |s|
    requires forall k :: i <= k < e ==> !IsSpace(s[k])
    requires e == |s| || IsSpace(s[e])
    ensures RunEnd(s, i) == e
    decreases e - i
  {
    if i < e {
      RunEndAt(s, i + 1, e);
    }
  }

  /** A word followed by whitespace or nothing is read as exactly that word. */
  lemma RunEndOfWord(pre: string, w: string, rest: string)
    requires IsWord(w)
    requires rest == [] || IsSpace(rest[0])
    ensures RunEnd(pre + w + rest, |pre|) == |pre| + |w|
  {
    var s := pre + w + rest;
    forall k | |pre| <= k < |pre| + |w| ensures !IsSpace(s[k]) {
      assert s[k] == w[k - |pre|];
    }
    if rest != [] {
      assert s[|pre| + |w|] == rest[0];
    }
    RunEndAt(s, |pre|, |pre| + |w|);
  }

  /** `str.split()` with no separator: the maximal non-whitespace runs, in order. */
  function Words(s: string): (ws: seq<string>)
    ensures forall i :: 0 <= i < |ws| ==> IsWord(ws[i])
    decreases |s|
  {
    if s == [] then []
    else if IsSpace(s[0]) then Words(s[1..])
    else
      var n := RunEnd(s, 0);
      RunEndNoSpace(s, 0);
      [s[..n]] + Words(s[n..])
  }

  /** Position `i` starts a run: it holds a non-whitespace character that begins `s` or follows whitespace. */
  predicate IsRunStart(s: string, i: nat) {
    i < |s| && !IsSpace(s[i]) && (i == 0 || IsSpace(s[i - 1]))
  }

  /** The positions from `i` on that start a run, in increasing order. */
  function RunStartsFrom(s: string, i: nat): (ps: seq<nat>)
    requires i <= |s|
    ensures |ps| <= |s| - i
    decreases |s| - i
  {
    if i == |s| then []
    else if IsRunStart(s, i) then [i] + RunStartsFrom(s, i + 1)
    else RunStartsFrom(s, i + 1)
  }

  /** `RunStartsFrom(s, i)` lists every run start from `i` on, and nothing else, in increasing order. */
  lemma {:induction false} RunStartsAreAll(s: string, i: nat)
    requires i <= |s|
    ensures var ps := RunStartsFrom(s, i);
            && (forall k :: 0 <= k < |ps| ==> i <= ps[k] < |s| && IsRunStart(s, ps[k]))
            && (forall j :: i <= j < |s| && IsRunStart(s, j) ==> j in ps)
            && (forall k, l :: 0 <= k < l < |ps| ==> ps[k] < ps[l])
    decreases |s| - i
  {
    if i < |s| {
      RunStartsAreAll(s, i + 1);
      var rest := RunStartsFrom(s, i + 1);
      if IsRunStart(s, i) {
        var ps := [i] + rest;
        assert forall k :: 1 <= k < |ps| ==> ps[k] == rest[k - 1];
        assert ps[0] == i;
        forall j | i <= j < |s| && IsRunStart(s, j) ensures j in ps {
          if j > i {
            assert j in rest;
          }
        }
      }
    }
  }

  /** Measuring a run in a suffix of `s` gives the same end, shifted. */
  lemma {:induction false} RunEndShift(s: string, i: nat, j: nat)
    requires i <= j <= |s|
    ensures RunEnd(s[i..], j - i) == RunEnd(s, j) - i
    decreases |s| - j
  {
    if j < |s| && !IsSpace(s[j]) {
      assert s[i..][j - i] == s[j];
      RunEndShift(s, i, j + 1);
    } else if j < |s| {
      assert s[i..][j - i] == s[j];
    }
  }

  /** No run starts strictly inside a run of non-whitespace. */
  lemma {:induction false} NoStartInsideRun(s: string, i: nat, e: nat)
    requires i < e <= |s|
    requires forall k :: i <= k < e ==> !IsSpace(s[k])
    ensures RunStartsFrom(s, i + 1) == RunStartsFrom(s, e)
    decreases e - i
  {
    if i + 1 < e {
      assert !IsRunStart(s, i + 1);
      NoStartInsideRun(s, i + 1, e);
    }
  }

  /** Word k of `ws` is the run of `s` that starts at position k of `ps`. */
  predicate Aligned(s: string, ws: seq<string>, ps: seq<nat>) {
    && |ws| == |ps|
    && forall k :: 0 <= k < |ws| ==> ps[k] <= |s| && ws[k] == s[ps[k]..RunEnd(s, ps[k])]
  }

  /** One more run in front keeps words and starts aligned. */
  lemma AlignedCons(s: string, p: nat, ws: seq<string>, ps: seq<nat>)
    requires p <= |s| && Aligned(s, ws, ps)
    ensures Aligned(s, [s[p..RunEnd(s, p)]] + ws, [p] + ps)
  {
    var ws', ps' := [s[p..RunEnd(s, p)]] + ws, [p] + ps;
    forall k | 0 <= k < |ws'| ensures ps'[k] <= |s| && ws'[k] == s[ps'[k]..RunEnd(s, ps'[k])] {
      if k > 0 {
        assert ws'[k] == ws[k - 1] && ps'[k] == ps[k - 1];
      }
    }
  }

  /** Whitespace at `i` adds no word and starts no run. */
  lemma WordsAtSpace(s: string, i: nat)
    requires i < |s| && IsSpace(s[i])
    ensures Words(s[i..]) == Words(s[i + 1..])
    ensures RunStartsFrom(s, i) == RunStartsFrom(s, i + 1)
  {
    assert s[i..][1..] == s[i + 1..];
  }

  /** A run starting at `i` is the first word of the suffix from `i`, and the words after it are those of the suffix from its end. */
  lemma WordsAtRun(s: string, i: nat)
    requires i < |s| && !IsSpace(s[i])
    ensures Words(s[i..]) == [s[i..RunEnd(s, i)]] + Words(s[RunEnd(s, i)..])
  {
    var t, e := s[i..], RunEnd(s, i);
    RunEndShift(s, i, i);
    assert t[..e - i] == s[i..e];
    assert t[e - i..] == s[e..];
  }

  /** A run start at `i` is the first of the run starts from `i`; the others are the run starts from the end of its run on. */
  lemma StartsAtRun(s: string, i: nat)
    requires i < |s| && !IsSpace(s[i]) && (i == 0 || IsSpace(s[i - 1]))
    ensures RunStartsFrom(s, i) == [i] + RunStartsFrom(s, RunEnd(s, i))
  {
    var e := RunEnd(s, i);
    RunEndNoSpace(s, i);
    assert IsRunStart(s, i);
    NoStartInsideRun(s, i, e);
  }

  /** Outside a run, the words of a suffix are the runs starting in it, in order. */
  lemma {:induction false} WordsFrom(s: string, i: nat)
    requires i <= |s|
    requires i == 0 || i == |s| || IsSpace(s[i - 1]) || IsSpace(s[i])
    ensures Aligned(s, Words(s[i..]), RunStartsFrom(s, i))
    decreases |s| - i
  {
    if i == |s| {
      assert s[i..] == [];
    } else if IsSpace(s[i]) {
      WordsAtSpace(s, i);
      WordsFrom(s, i + 1);
    } else {
      var e := RunEnd(s, i);
      WordsAtRun(s, i);
      StartsAtRun(s, i);
      WordsFrom(s, e);
      AlignedCons(s, i, Words(s[e..]), RunStartsFrom(s, e));
    }
  }

  /**
   * The words of `s` are exactly its maximal non-whitespace runs, in
   * order: word k runs from the k-th run start to the whitespace or end
   * of text that follows it.
   */
  lemma WordsAreRuns(s: string)
    ensures var ws, ps := Words(s), RunStartsFrom(s, 0);
            && |ws| == |ps|
            && (forall k :: 0 <= k < |ps| ==> ps[k] < |s| && IsRunStart(s, ps[k]))
            && (forall k :: 0 <= k < |ws| ==> ws[k] == s[ps[k]..RunEnd(s, ps[k])])
            && (forall j :: 0 <= j < |s| && IsRunStart(s, j) ==> j in ps)
            && (forall k, l :: 0 <= k < l < |ps| ==> ps[k] < ps[l])
  {
    RunStartsAreAll(s, 0);
    WordsFrom(s, 0);
    assert s[0..] == s;
  }

  /** Words joined by single spaces. */
  function Join(ws: seq<string>): string {
    if ws == [] then ""
    else if |ws| == 1 then ws[0]
    else ws[0] + " " + Join(ws[1..])
  }

  /** Splitting the single-space join of words gives back those words. */
  lemma {:induction false} WordsOfJoin(ws: seq<string>)
    requires forall i :: 0 <= i < |ws| ==> IsWord(ws[i])
    ensures Words(Join(ws)) == ws
  {
    if ws == [] {
    } else if |ws| == 1 {
      var w := ws[0];
      RunEndOfWord([], w, []);
      assert [] + w + [] == w;
      assert w[..|w|] == w;
      assert w[|w|..] == [];
      assert Words(w) == [w] + Words([]);
    } else {
      var w := ws[0];
      var rest := " " + Join(ws[1..]);
      assert Join(ws) == w + rest;
      RunEndOfWord([], w, rest);
      assert [] + w + rest == w + rest;
      assert (w + rest)[..|w|] == w;
      assert (w + rest)[|w|..] == rest;
      assert rest[1..] == Join(ws[1..]);
      WordsOfJoin(ws[1..]);
    }
  }

  /** Lower-casing text that has no upper-case ASCII letters changes nothing. */
  lemma LowerOfLower(s: string)
    requires IsLower(s)
    ensures Lower(s) == s
  {
  }

  /** Joining lower-case words keeps the text lower-case. */
  lemma {:induction false} JoinIsLower(ws: seq<string>)
    requires forall i :: 0 <= i < |ws| ==> IsLower(ws[i])
    ensures IsLower(Join(ws))
  {
    if |ws| > 1 {
      JoinIsLower(ws[1..]);
      var j := ws[0] + " " + Join(ws[1..]);
      forall i | 0 <= i < |j| ensures LowerChar(j[i]) == j[i] {
        if i < |ws[0]| {
        } else if i == |ws[0]| {
        } else {
          assert j[i] == Join(ws[1..])[i - |ws[0]| - 1];
        }
      }
    }
  }
}
