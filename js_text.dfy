/**
 * The JavaScript string operations the command dispatcher relies on, restricted to
 * ASCII: `\s` and `String.prototype.trim` (same character class), `split(/\s+/)`,
 * `join(' ')` and `toLowerCase`.
 */
module JsText {

  /** ASCII whitespace: space, tab, line feed, vertical tab, form feed, carriage return. */
  predicate IsSpace(c: char) {
    c == ' ' || c == '\t' || c == '\n' || c == '\U{B}' || c == '\U{C}' || c == '\r'
  }

  predicate NoSpace(s: string) {
    forall i :: 0 <= i < |s| ==> !IsSpace(s[i])
  }

  predicate AllSpace(s: string) {
    forall i :: 0 <= i < |s| ==> IsSpace(s[i])
  }

  /** Neither starts nor ends with whitespace. */
  predicate Trimmed(s: string) {
    s == [] || (!IsSpace(s[0]) && !IsSpace(s[|s| - 1]))
  }

  predicate IsUpper(c: char) {
    'A' <= c <= 'Z'
  }

  predicate NoUpper(s: string) {
    forall i :: 0 <= i < |s| ==> !IsUpper(s[i])
  }

  function LowerChar(c: char): char {
    if IsUpper(c) then (c as int + 32) as char else c
  }

  /** `s.toLowerCase()` on ASCII letters; every other character is kept. */
  function ToLower(s: string): (r: string)
    ensures |r| == |s|
    ensures forall i :: 0 <= i < |s| ==> r[i] == LowerChar(s[i])
    ensures NoUpper(r)
    ensures forall i :: 0 <= i < |s| ==> (IsSpace(r[i]) <==> IsSpace(s[i]))
    ensures NoUpper(s) ==> r == s
  {
    seq(|s|, i requires 0 <= i < |s| => LowerChar(s[i]))
  }

  /** Drops the leading whitespace of `s`. */
  function TrimStart(s: string): (r: string)
    ensures |r| <= |s| && r == s[|s| - |r|..]
    ensures AllSpace(s[..|s| - |r|])
    ensures r == [] || !IsSpace(r[0])
  {
    if s != [] && IsSpace(s[0]) then TrimStart(s[1..]) else s
  }

  /** Drops the trailing whitespace of `s`. */
  function TrimEnd(s: string): (r: string)
    ensures |r| <= |s| && r == s[..|r|]
    ensures AllSpace(s[|r|..])
    ensures r == [] || !IsSpace(r[|r| - 1])
  {
    if s != [] && IsSpace(s[|s| - 1]) then TrimEnd(s[..|s| - 1]) else s
  }

  /** `s.trim()`: the longest infix of `s` that neither starts nor ends with whitespace. */
  function Trim(s: string): (r: string)
    ensures Trimmed(r)
    ensures r == [] <==> AllSpace(s)
    ensures Trimmed(s) ==> r == s
  {
    TrimBothEnds(s);
    TrimEnd(TrimStart(s))
  }

  lemma TrimBothEnds(s: string)
    ensures var r := TrimEnd(TrimStart(s));
      Trimmed(r) && (r == [] <==> AllSpace(s)) && (Trimmed(s) ==> r == s)
  {
    var t := TrimStart(s);
    var r := TrimEnd(t);
    assert r != [] ==> t != [] && r[0] == t[0];
    if t == [] {
      assert s[..|s| - |t|] == s;
    }
  }

  /** `s.split(/\s+/)`: the pieces of `s` between maximal runs of whitespace. */
  function Split(s: string): (r: seq<string>)
    ensures |r| >= 1
    ensures forall k :: 0 <= k < |r| ==> NoSpace(r[k])
    decreases |s|
  {
    if s == [] then [""]
    else if IsSpace(s[0]) then [""] + Split(TrimStart(s[1..]))
    else
      var rest := Split(s[1..]);
      [[s[0]] + rest[0]] + rest[1..]
  }

  /** The whitespace runs that `Split(s)` drops, in order: one between each pair of
      neighbouring pieces. */
  function Gaps(s: string): (gaps: seq<string>)
    ensures |gaps| == |Split(s)| - 1
    decreases |s|
  {
    if s == [] then []
    else if IsSpace(s[0]) then
      var t := TrimStart(s[1..]);
      [s[..|s| - |t|]] + Gaps(t)
    else Gaps(s[1..])
  }

  /** Every run `Split` drops is a non-empty run of whitespace. */
  lemma {:induction false} GapsAreSeparators(s: string)
    ensures Separators(Gaps(s))
    decreases |s|
  {
    if s == [] {
    } else if IsSpace(s[0]) {
      var t := TrimStart(s[1..]);
      GapsAreSeparators(t);
      LeadingRun(s);
      SeparatorsCons(s[..|s| - |t|], Gaps(t));
    } else {
      GapsAreSeparators(s[1..]);
    }
  }

  /** The whitespace run at the head of a string that starts with whitespace. */
  lemma LeadingRun(s: string)
    requires s != [] && IsSpace(s[0])
    ensures var t := TrimStart(s[1..]); var run := s[..|s| - |t|];
      run != [] && AllSpace(run)
  {
    var t := TrimStart(s[1..]);
    var n := |s| - |t|;
    assert 1 <= n;
    assert t == TrimStart(s);
    AllSpacePrefix(s, n);
  }

  /** An all-whitespace prefix, read character by character. */
  lemma AllSpacePrefix(s: string, n: nat)
    requires n <= |s| && AllSpace(s[..n])
    ensures forall k :: 0 <= k < n ==> IsSpace(s[k])
  {
    forall k | 0 <= k < n ensures IsSpace(s[k]) {
      assert s[..n][k] == s[k];
    }
  }

  lemma SeparatorsCons(sep: string, seps: seq<string>)
    requires sep != [] && AllSpace(sep) && Separators(seps)
    ensures Separators([sep] + seps)
  {
    assert forall k :: 1 <= k < |seps| + 1 ==> ([sep] + seps)[k] == seps[k - 1];
  }

  /** `toks.join(' ')`: empty exactly for no tokens or a single empty one, and
      otherwise the first token followed, when there are more, by a single space. */
  function Join(toks: seq<string>): (r: string)
    ensures r == "" <==> toks == [] || toks == [""]
    ensures toks != [] ==> |toks[0]| <= |r| && r[..|toks[0]|] == toks[0]
    ensures |toks| >= 2 ==> |toks[0]| < |r| && r[|toks[0]|] == ' '
  {
    if toks == [] then ""
    else if |toks| == 1 then toks[0]
    else toks[0] + " " + Join(toks[1..])
  }

  /** Separators between words: non-empty runs of whitespace. */
  predicate Separators(seps: seq<string>) {
    forall k :: 0 <= k < |seps| ==> seps[k] != [] && AllSpace(seps[k])
  }

  /** Words written out with the separator `seps[k]` between `words[k]` and
      `words[k + 1]`. */
  function JoinWith(words: seq<string>, seps: seq<string>): string
    requires |words| >= 1 && |seps| == |words| - 1
    decreases |words|
  {
    if |words| == 1 then words[0] else words[0] + seps[0] + JoinWith(words[1..], seps[1..])
  }

  /** `n` single-space separators. */
  function SingleSpaces(n: nat): (seps: seq<string>)
    ensures |seps| == n && Separators(seps)
  {
    seq(n, _ => " ")
  }

  /** A token as `split(/\s+/)` yields it from a trimmed, non-empty string. */
  predicate IsWord(w: string) {
    w != [] && NoSpace(w)
  }

  predicate AllWords(toks: seq<string>) {
    forall k :: 0 <= k < |toks| ==> IsWord(toks[k])
  }

  /** Trimming removes exactly the whitespace padding around a trimmed string. */
  lemma {:induction false} TrimPadded(pre: string, s: string, post: string)
    requires AllSpace(pre) && AllSpace(post) && Trimmed(s) && s != []
    ensures Trim(pre + s + post) == s
  {
    var x := pre + s + post;
    assert x == pre + (s + post);
    assert (s + post)[0] == s[0];
    TrimStartPadded(pre, s + post);
    assert TrimStart(x) == s + post;
    TrimEndPadded(s, post);
    assert Trim(x) == TrimEnd(s + post);
  }

  lemma {:induction false} TrimStartPadded(pre: string, s: string)
    requires AllSpace(pre) && s != [] && !IsSpace(s[0])
    ensures TrimStart(pre + s) == s
    decreases |pre|
  {
    if pre != [] {
      assert (pre + s)[1..] == pre[1..] + s;
      TrimStartPadded(pre[1..], s);
    }
  }

  lemma {:induction false} TrimEndPadded(s: string, post: string)
    requires AllSpace(post) && s != [] && !IsSpace(s[|s| - 1])
    ensures TrimEnd(s + post) == s
    decreases |post|
  {
    if post != [] {
      var p := post[..|post| - 1];
      assert (s + post)[..|s + post| - 1] == s + p;
      TrimEndPadded(s, p);
    }
  }

  /** A run of non-space characters glues onto the first piece of what follows it. */
  lemma {:induction false} SplitAfterWord(w: string, rest: string)
    requires NoSpace(w)
    ensures Split(w + rest) == [w + Split(rest)[0]] + Split(rest)[1..]
    decreases |w|
  {
    if w == [] {
      assert w + rest == rest;
      assert w + Split(rest)[0] == Split(rest)[0];
      assert Split(rest) == [Split(rest)[0]] + Split(rest)[1..];
    } else {
      assert (w + rest)[1..] == w[1..] + rest;
      SplitAfterWord(w[1..], rest);
      assert [w[0]] + (w[1..] + Split(rest)[0]) == w + Split(rest)[0];
    }
  }

  /** A trimmed, non-empty string splits into words only: no piece is empty. */
  lemma {:induction false} SplitTrimmedIsWords(s: string)
    requires Trimmed(s) && s != []
    ensures AllWords(Split(s))
    decreases |s|
  {
    var rest := Split(s[1..]);
    if s[1..] == [] {
    } else if !IsSpace(s[1]) {
      SplitTrimmedIsWords(s[1..]);
    } else {
      var t := TrimStart(s[2..]);
      assert s[1..][1..] == s[2..];
      assert rest == [""] + Split(t);
      assert s[|s| - 1] == s[2..][|s[2..]| - 1];
      assert t != [] && t[|t| - 1] == s[|s| - 1];
      SplitTrimmedIsWords(t);
    }
  }

  /** A run of whitespace in front of a string that starts with a non-space adds one
      empty first piece, however long the run. */
  lemma SplitAfterSpaceRun(ws: string, t: string)
    requires ws != [] && AllSpace(ws)
    requires t != [] && !IsSpace(t[0])
    ensures Split(ws + t) == [""] + Split(t)
  {
    assert (ws + t)[0] == ws[0];
    assert (ws + t)[1..] == ws[1..] + t;
    TrimStartPadded(ws[1..], t);
  }

  /** Splitting inverts writing words out with any whitespace runs between them. */
  lemma {:induction false} SplitJoinWith(words: seq<string>, seps: seq<string>)
    requires |words| >= 1 && |seps| == |words| - 1
    requires AllWords(words) && Separators(seps)
    ensures Split(JoinWith(words, seps)) == words
    decreases |words|
  {
    if |words| == 1 {
      SplitAfterWord(words[0], "");
      assert words[0] + "" == words[0];
      assert words == [words[0]];
    } else {
      var tail := JoinWith(words[1..], seps[1..]);
      assert AllWords(words[1..]) by {
        assert forall k :: 0 <= k < |words| - 1 ==> words[1..][k] == words[k + 1];
      }
      assert Separators(seps[1..]) by {
        assert forall k :: 0 <= k < |seps| - 1 ==> seps[1..][k] == seps[k + 1];
      }
      JoinWithEnds(words[1..], seps[1..]);
      SplitJoinWith(words[1..], seps[1..]);
      SplitWordThenRest(words[0], seps[0], tail);
      assert words == [words[0]] + words[1..];
    }
  }

  /** A word, a whitespace run, then a string that starts with a non-space: the word is
      the first piece and the rest split as before. */
  lemma SplitWordThenRest(w: string, ws: string, t: string)
    requires NoSpace(w) && ws != [] && AllSpace(ws)
    requires t != [] && !IsSpace(t[0])
    ensures Split(w + ws + t) == [w] + Split(t)
  {
    SplitAfterSpaceRun(ws, t);
    assert w + ws + t == w + (ws + t);
    SplitAfterWord(w, ws + t);
    assert w + "" == w;
  }

  /** Words written out with separators start with the first word's first character and
      end with the last word's last character. */
  lemma {:induction false} JoinWithEnds(words: seq<string>, seps: seq<string>)
    requires |words| >= 1 && |seps| == |words| - 1
    requires AllWords(words)
    ensures var j := JoinWith(words, seps); var last := words[|words| - 1];
      j != [] && j[0] == words[0][0] && j[|j| - 1] == last[|last| - 1]
    decreases |words|
  {
    if |words| > 1 {
      assert AllWords(words[1..]) by {
        assert forall k :: 0 <= k < |words| - 1 ==> words[1..][k] == words[k + 1];
      }
      JoinWithEnds(words[1..], seps[1..]);
    }
  }

  /** `join(' ')` writes the words out with single spaces. */
  lemma {:induction false} JoinIsSingleSpaced(toks: seq<string>)
    requires |toks| >= 1
    ensures Join(toks) == JoinWith(toks, SingleSpaces(|toks| - 1))
    decreases |toks|
  {
    if |toks| > 1 {
      JoinIsSingleSpaced(toks[1..]);
      assert SingleSpaces(|toks| - 1)[1..] == SingleSpaces(|toks| - 2);
    }
  }

  /** Splitting loses nothing but whitespace: the pieces, written out with the dropped
      runs between them, give back the string. */
  lemma {:induction false} SplitRebuild(s: string)
    ensures JoinWith(Split(s), Gaps(s)) == s
    decreases |s|
  {
    if s == [] {
    } else if IsSpace(s[0]) {
      SplitRebuild(TrimStart(s[1..]));
      RebuildAfterRun(s);
      RunThenRest(s);
    } else {
      SplitRebuild(s[1..]);
      RebuildAfterChar(s);
    }
  }

  /** The step of `SplitRebuild` for a string that starts with whitespace. */
  lemma RebuildAfterRun(s: string)
    requires s != [] && IsSpace(s[0])
    ensures var t := TrimStart(s[1..]);
      JoinWith(Split(s), Gaps(s)) == s[..|s| - |t|] + JoinWith(Split(t), Gaps(t))
  {
    var t := TrimStart(s[1..]);
    var run := s[..|s| - |t|];
    var pieces, gaps := Split(t), Gaps(t);
    var w, g := [""] + pieces, [run] + gaps;
    SplitGapsAtRun(s);
    assert w[1..] == pieces && g[1..] == gaps;
    assert JoinWith(w, g) == w[0] + g[0] + JoinWith(pieces, gaps);
    assert w[0] + g[0] == run;
  }

  /** `Split` and `Gaps` of a string that starts with whitespace, unfolded once. */
  lemma SplitGapsAtRun(s: string)
    requires s != [] && IsSpace(s[0])
    ensures var t := TrimStart(s[1..]);
      Split(s) == [""] + Split(t) && Gaps(s) == [s[..|s| - |t|]] + Gaps(t)
  {
  }

  /** A string that starts with whitespace is its leading run followed by the rest. */
  lemma RunThenRest(s: string)
    requires s != [] && IsSpace(s[0])
    ensures var t := TrimStart(s[1..]); s == s[..|s| - |t|] + t
  {
    var t := TrimStart(s[1..]);
    assert t == TrimStart(s);
  }

  /** The step of `SplitRebuild` for a string that starts with a non-space. */
  lemma RebuildAfterChar(s: string)
    requires s != [] && !IsSpace(s[0])
    requires JoinWith(Split(s[1..]), Gaps(s[1..])) == s[1..]
    ensures JoinWith(Split(s), Gaps(s)) == s
  {
    var rest := Split(s[1..]);
    assert Split(s) == [[s[0]] + rest[0]] + rest[1..];
    assert Gaps(s) == Gaps(s[1..]);
    JoinWithFirst(s[0], rest, Gaps(s[1..]));
    assert s == [s[0]] + s[1..];
  }

  /** Putting a character in front of the first word puts it in front of the whole. */
  lemma JoinWithFirst(c: char, words: seq<string>, seps: seq<string>)
    requires |words| >= 1 && |seps| == |words| - 1
    ensures JoinWith([[c] + words[0]] + words[1..], seps) == [c] + JoinWith(words, seps)
  {
    var moved := [[c] + words[0]] + words[1..];
    if |words| > 1 {
      assert moved[1..] == words[1..];
    }
  }

  /** Splitting inverts joining with single spaces. */
  lemma SplitJoin(toks: seq<string>)
    requires |toks| >= 1 && AllWords(toks)
    ensures Split(Join(toks)) == toks
  {
    JoinIsSingleSpaced(toks);
    SplitJoinWith(toks, SingleSpaces(|toks| - 1));
  }

  /** A join of words starts with the first word's first character and ends with the
      last word's last character. */
  lemma JoinEnds(toks: seq<string>)
    requires |toks| >= 1 && AllWords(toks)
    ensures var j := Join(toks); var last := toks[|toks| - 1];
      j != [] && j[0] == toks[0][0] && j[|j| - 1] == last[|last| - 1]
  {
    JoinIsSingleSpaced(toks);
    JoinWithEnds(toks, SingleSpaces(|toks| - 1));
  }
}
