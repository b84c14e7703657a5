/** The JavaScript string operations the className rewrite relies on: the `\s` and `\w`
    character classes, `split(/\s+/g)`, `filter(i => i)`, `trim()`, `shift()` and `pop()`. */
module JsText {

  /** White space as JavaScript's `\s` and `String.prototype.trim` see it: the WhiteSpace and
      LineTerminator code points of ECMAScript (tab, vertical tab, form feed, space, no-break
      space, the Unicode space separators, the byte-order mark, LF, CR, LS and PS). */
  predicate IsWs(c: char) {
    c == ' ' || c == '\t' || c == '\n' || c == '\r' || c == '\U{000B}' || c == '\U{000C}'
    || c == '\U{00A0}' || c == '\U{1680}' || ('\U{2000}' <= c <= '\U{200A}')
    || c == '\U{2028}' || c == '\U{2029}' || c == '\U{202F}' || c == '\U{205F}'
    || c == '\U{3000}' || c == '\U{FEFF}'
  }

  /** JavaScript's `\w` without the `u` flag: ASCII letters, digits and underscore. */
  predicate IsWordChar(c: char) {
    ('a' <= c <= 'z') || ('A' <= c <= 'Z') || ('0' <= c <= '9') || c == '_'
  }

  predicate WsFree(s: string) {
    forall i :: 0 <= i < |s| ==> !IsWs(s[i])
  }

  /** `/^\s/.test(s)` */
  predicate StartsWs(s: string) {
    |s| > 0 && IsWs(s[0])
  }

  /** `/\s$/.test(s)`: without the `m` flag `$` matches only at the end of the input. */
  predicate EndsWs(s: string) {
    |s| > 0 && IsWs(s[|s| - 1])
  }

  /** `s.trim() === ''` */
  predicate IsBlank(s: string) {
    forall i :: 0 <= i < |s| ==> IsWs(s[i])
  }

  /** `s.split(/\s+/g)`: the pieces between maximal runs of white space. A leading (trailing)
      run yields an empty first (last) piece, and the empty string splits into `[""]`. */
  function SplitWs(s: string): (parts: seq<string>)
    ensures |parts| >= 1
    ensures forall i :: 0 <= i < |parts| ==> WsFree(parts[i])
    ensures forall i :: 0 < i < |parts| - 1 ==> parts[i] != ""
    ensures parts[0] == "" <==> s == "" || IsWs(s[0])
    ensures parts[|parts| - 1] == "" <==> s == "" || IsWs(s[|s| - 1])
    ensures |parts| == 1 <==> WsFree(s)
    decreases |s|
  {
    if s == [] then [""]
    else
      var rest := SplitWs(s[1..]);
      if !IsWs(s[0]) then [[s[0]] + rest[0]] + rest[1..]
      else if |s| > 1 && IsWs(s[1]) then rest
      else [""] + rest
  }

  /** The text with every white-space character removed. */
  function StripWs(s: string): (r: string)
    ensures WsFree(r)
  {
    if s == [] then [] else (if IsWs(s[0]) then [] else [s[0]]) + StripWs(s[1..])
  }

  function Concat(parts: seq<string>): string {
    if parts == [] then [] else parts[0] + Concat(parts[1..])
  }

  /** The pieces of `SplitWs(s)`, read back to back, are exactly the non-white-space characters
      of `s` in order: no character is lost, duplicated or moved. */
  lemma {:induction false} SplitWsKeepsText(s: string)
    ensures Concat(SplitWs(s)) == StripWs(s)
    decreases |s|
  {
    if s != [] {
      var rest := SplitWs(s[1..]);
      SplitWsKeepsText(s[1..]);
      assert Concat(rest) == rest[0] + Concat(rest[1..]);
      if !IsWs(s[0]) {
        var r := [[s[0]] + rest[0]] + rest[1..];
        assert r[1..] == rest[1..];
        assert Concat(r) == [s[0]] + rest[0] + Concat(rest[1..]);
      } else if |s| > 1 && IsWs(s[1]) {
      } else {
        var r := [""] + rest;
        assert r[1..] == rest;
      }
    }
  }

  /** Pieces written back to back with one run of white space between each two neighbours. */
  function Interleave(parts: seq<string>, runs: seq<string>): string
    requires |runs| + 1 == |parts|
    decreases |runs|
  {
    if runs == [] then parts[0] else parts[0] + runs[0] + Interleave(parts[1..], runs[1..])
  }

  /** Every run is non-empty white space. */
  predicate WsRuns(runs: seq<string>) {
    forall k :: 0 <= k < |runs| ==> runs[k] != [] && IsBlank(runs[k])
  }

  /** Pieces free of white space, all but the first and the last non-empty. */
  predicate Pieces(parts: seq<string>) {
    (forall k :: 0 <= k < |parts| ==> WsFree(parts[k]))
    && (forall k :: 0 < k < |parts| - 1 ==> parts[k] != "")
  }

  /** The pieces of `SplitWs(s)` are what lies between the maximal runs of white space of
      `s`: some runs put back between them give `s` again. */
  lemma {:induction false} SplitWsBreaks(s: string) returns (runs: seq<string>)
    ensures |runs| + 1 == |SplitWs(s)| && WsRuns(runs)
    ensures Interleave(SplitWs(s), runs) == s
    decreases |s|
  {
    if s == [] {
      runs := [];
    } else {
      var rest := SplitWs(s[1..]);
      var r := SplitWsBreaks(s[1..]);
      var parts := SplitWs(s);
      if !IsWs(s[0]) {
        assert parts == [[s[0]] + rest[0]] + rest[1..];
        runs := r;
        BreaksAfterChar(s, rest, r, parts);
      } else if |s| > 1 && IsWs(s[1]) {
        assert parts == rest;
        assert rest[0] == "" && |rest| != 1;
        runs := BreaksLongerRun(s, rest, r);
      } else {
        assert parts == [""] + rest;
        runs := BreaksNewRun(s, rest, r, parts);
      }
    }
  }

  lemma BreaksAfterChar(s: string, rest: seq<string>, r: seq<string>, parts: seq<string>)
    requires s != [] && |r| + 1 == |rest| && Interleave(rest, r) == s[1..]
    requires parts == [[s[0]] + rest[0]] + rest[1..]
    ensures |r| + 1 == |parts| && Interleave(parts, r) == s
  {
    assert rest == [rest[0]] + rest[1..];
    InterleaveCons(s[0], rest[0], rest[1..], r);
    assert s == [s[0]] + s[1..];
  }

  lemma BreaksLongerRun(s: string, rest: seq<string>, r: seq<string>) returns (runs: seq<string>)
    requires s != [] && IsWs(s[0]) && |r| + 1 == |rest| && WsRuns(r) && Interleave(rest, r) == s[1..]
    requires rest[0] == "" && |rest| != 1
    ensures |runs| + 1 == |rest| && WsRuns(runs) && Interleave(rest, runs) == s
  {
    runs := [[s[0]] + r[0]] + r[1..];
    assert Interleave(rest, r) == rest[0] + r[0] + Interleave(rest[1..], r[1..]);
    assert Interleave(rest, runs) == rest[0] + runs[0] + Interleave(rest[1..], runs[1..]);
    assert runs[1..] == r[1..];
    assert s == [s[0]] + s[1..];
    forall k | 0 <= k < |runs|
      ensures runs[k] != [] && IsBlank(runs[k])
    {
      if k > 0 {
        assert runs[k] == r[k];
      }
    }
  }

  lemma BreaksNewRun(s: string, rest: seq<string>, r: seq<string>, parts: seq<string>) returns (runs: seq<string>)
    requires s != [] && IsWs(s[0]) && |r| + 1 == |rest| && WsRuns(r) && Interleave(rest, r) == s[1..]
    requires parts == [""] + rest
    ensures |runs| + 1 == |parts| && WsRuns(runs) && Interleave(parts, runs) == s
  {
    runs := [[s[0]]] + r;
    assert parts[1..] == rest && runs[1..] == r;
    assert Interleave(parts, runs) == "" + [s[0]] + Interleave(rest, r);
    assert s == [s[0]] + s[1..];
    forall k | 0 <= k < |runs|
      ensures runs[k] != [] && IsBlank(runs[k])
    {
      if k > 0 {
        assert runs[k] == r[k - 1];
      }
    }
  }

  lemma InterleaveCons(c: char, p0: string, ps: seq<string>, runs: seq<string>)
    requires |runs| == |ps|
    ensures Interleave([[c] + p0] + ps, runs) == [c] + Interleave([p0] + ps, runs)
  {
    assert ([[c] + p0] + ps)[1..] == ps && ([p0] + ps)[1..] == ps;
  }

  /** Conversely, pieces written back to back with runs of white space between them split
      into exactly those pieces: the split is the only one of this shape. */
  lemma {:induction false} SplitWsOfInterleave(parts: seq<string>, runs: seq<string>)
    requires |runs| + 1 == |parts| && Pieces(parts) && WsRuns(runs)
    ensures SplitWs(Interleave(parts, runs)) == parts
    decreases |runs|
  {
    if runs == [] {
      SplitWsOfWord(parts[0]);
      assert parts == [parts[0]];
    } else {
      ShapesOfRest(parts, runs);
      var rest := Interleave(parts[1..], runs[1..]);
      SplitWsOfInterleave(parts[1..], runs[1..]);
      assert Interleave(parts, runs) == parts[0] + runs[0] + rest;
      if parts[1] == "" {
        LastPieceEmpty(parts, runs);
        SplitWordRun(parts[0], runs[0]);
        assert parts[0] + runs[0] + rest == parts[0] + runs[0];
      } else {
        InterleaveStart(parts[1..], runs[1..]);
        SplitWsWordSpace(parts[0], runs[0], rest);
        assert parts == [parts[0]] + parts[1..];
      }
    }
  }

  lemma ShapesOfRest(parts: seq<string>, runs: seq<string>)
    requires |runs| + 1 == |parts| && runs != [] && Pieces(parts) && WsRuns(runs)
    ensures Pieces(parts[1..]) && WsRuns(runs[1..])
  {
    forall k | 0 <= k < |parts[1..]|
      ensures WsFree(parts[1..][k])
    {
      assert parts[1..][k] == parts[k + 1];
    }
    forall k | 0 < k < |parts[1..]| - 1
      ensures parts[1..][k] != ""
    {
      assert parts[1..][k] == parts[k + 1];
    }
    forall k | 0 <= k < |runs[1..]|
      ensures runs[1..][k] != [] && IsBlank(runs[1..][k])
    {
      assert runs[1..][k] == runs[k + 1];
    }
  }

  /** An empty piece after a run is the last one. */
  lemma LastPieceEmpty(parts: seq<string>, runs: seq<string>)
    requires |runs| + 1 == |parts| && runs != [] && Pieces(parts) && parts[1] == ""
    ensures |runs| == 1 && Interleave(parts[1..], runs[1..]) == "" && parts == [parts[0], ""]
  {
  }

  /** A word followed by a run of white space splits into the word and an empty piece. */
  lemma SplitWordRun(w: string, sp: string)
    requires WsFree(w) && sp != [] && IsBlank(sp)
    ensures SplitWs(w + sp) == [w, ""]
  {
    BlankSplit(sp);
    SplitWsWordPrefix(w, sp);
    assert w + "" == w;
  }

  lemma InterleaveStart(parts: seq<string>, runs: seq<string>)
    requires |runs| + 1 == |parts| && parts[0] != "" && !IsWs(parts[0][0])
    ensures Interleave(parts, runs) != [] && Interleave(parts, runs)[0] == parts[0][0]
  {
  }

  /** A non-empty run of white space splits into two empty pieces. */
  lemma {:induction false} BlankSplit(sp: string)
    requires sp != [] && IsBlank(sp)
    ensures SplitWs(sp) == ["", ""]
    decreases |sp|
  {
    if |sp| > 1 {
      BlankSplit(sp[1..]);
    } else {
      assert sp[1..] == [];
    }
  }

  /** A string without white space splits into itself alone. */
  lemma SplitWsOfWord(s: string)
    requires WsFree(s)
    ensures SplitWs(s) == [s]
  {
    var parts := SplitWs(s);
    SplitWsKeepsText(s);
    StripWsFree(s);
    assert Concat(parts) == parts[0] + Concat(parts[1..]);
    assert parts[1..] == [];
  }

  /** A word in front of a text joins the first piece of the text's split. */
  lemma {:induction false} SplitWsWordPrefix(w: string, r: string)
    requires WsFree(w)
    ensures SplitWs(w + r) == [w + SplitWs(r)[0]] + SplitWs(r)[1..]
    decreases |w|
  {
    var parts := SplitWs(r);
    if w == [] {
      assert w + r == r;
      assert parts == [parts[0]] + parts[1..];
      assert w + parts[0] == parts[0];
    } else {
      var t := w + r;
      assert t[0] == w[0];
      assert t[1..] == w[1..] + r;
      SplitWsWordPrefix(w[1..], r);
      JoinHead(w, parts[0], parts[1..], SplitWs(t[1..]), SplitWs(t));
    }
  }

  lemma JoinHead(w: string, p0: string, ps: seq<string>, rest: seq<string>, whole: seq<string>)
    requires w != []
    requires rest == [w[1..] + p0] + ps
    requires whole == [[w[0]] + rest[0]] + rest[1..]
    ensures whole == [w + p0] + ps
  {
    assert rest[0] == w[1..] + p0 && rest[1..] == ps;
    assert w == [w[0]] + w[1..];
    assert [w[0]] + (w[1..] + p0) == w + p0;
  }

  /** White space in front of a word starts the split with an empty piece, however long
      the run is. */
  lemma {:induction false} SplitWsSpacePrefix(sp: string, r: string)
    requires sp != [] && IsBlank(sp) && r != [] && !IsWs(r[0])
    ensures SplitWs(sp + r) == [""] + SplitWs(r)
    decreases |sp|
  {
    var t := sp + r;
    assert t[0] == sp[0] && t[1..] == sp[1..] + r;
    if |sp| == 1 {
      assert t[1..] == r;
    } else {
      assert t[1] == sp[1];
      SplitWsSpacePrefix(sp[1..], r);
    }
  }

  /** Two words with a run of white space between them split into the two words. */
  lemma SplitTwoWords(w1: string, sp: string, w2: string)
    requires WsFree(w1) && sp != [] && IsBlank(sp) && w2 != [] && WsFree(w2)
    ensures SplitWs(w1 + sp + w2) == [w1, w2]
  {
    SplitWsOfWord(w2);
    SplitWsSpacePrefix(sp, w2);
    SplitWsWordPrefix(w1, sp + w2);
    assert w1 + sp + w2 == w1 + (sp + w2);
    assert w1 + "" == w1;
  }

  /** A word, a run of white space and a text starting with a word: the word is the first
      piece and the text's pieces follow. */
  lemma SplitWsWordSpace(w: string, sp: string, r: string)
    requires WsFree(w) && sp != [] && IsBlank(sp) && r != [] && !IsWs(r[0])
    ensures SplitWs(w + sp + r) == [w] + SplitWs(r)
  {
    SplitWsSpacePrefix(sp, r);
    SplitWsWordPrefix(w, sp + r);
    assert w + sp + r == w + (sp + r);
    assert ([""] + SplitWs(r))[1..] == SplitWs(r);
    assert w + "" == w;
  }

  /** Three words with runs of white space between them split into the three words. */
  lemma SplitThreeWords(w1: string, sp1: string, w2: string, sp2: string, w3: string)
    requires WsFree(w1) && WsFree(w2) && WsFree(w3) && w2 != [] && w3 != []
    requires sp1 != [] && IsBlank(sp1) && sp2 != [] && IsBlank(sp2)
    ensures SplitWs(w1 + sp1 + (w2 + sp2 + w3)) == [w1, w2, w3]
  {
    var r := w2 + sp2 + w3;
    SplitTwoWords(w2, sp2, w3);
    assert r[0] == w2[0];
    SplitWsWordSpace(w1, sp1, r);
    ConsTwo(w1, SplitWs(r), w2, w3, SplitWs(w1 + sp1 + r));
  }

  // Cost helper: a sequence-shape step the callers would otherwise leave to the solver.
  lemma ConsTwo<T>(a: T, rs: seq<T>, b: T, c: T, all: seq<T>)
    requires rs == [b, c] && all == [a] + rs
    ensures all == [a, b, c]
  {
  }

  lemma {:induction false} StripWsFree(s: string)
    requires WsFree(s)
    ensures StripWs(s) == s
    decreases |s|
  {
    if s != [] {
      StripWsFree(s[1..]);
    }
  }

  /** `parts.filter(i => i)`: the non-empty strings, in order. */
  function NonEmpty(parts: seq<string>): (r: seq<string>)
    ensures |r| <= |parts|
    ensures forall i :: 0 <= i < |r| ==> r[i] != "" && r[i] in parts
  {
    if parts == [] then []
    else (if parts[0] == "" then [] else [parts[0]]) + NonEmpty(parts[1..])
  }

  /** `s.split(/\s+/g).filter(i => i)`: the class tokens of a piece of text. */
  function Tokens(s: string): seq<string> {
    NonEmpty(SplitWs(s))
  }

  /** `xs.shift()` for its effect on `xs`: nothing happens to an empty array. */
  function DropFirst<T>(xs: seq<T>): seq<T> {
    if xs == [] then [] else xs[1..]
  }

  /** `xs.pop()` for its effect on `xs`: nothing happens to an empty array. */
  function DropLast<T>(xs: seq<T>): seq<T> {
    if xs == [] then [] else xs[..|xs| - 1]
  }

  lemma NonEmptyAppend(xs: seq<string>, ys: seq<string>)
    ensures NonEmpty(xs + ys) == NonEmpty(xs) + NonEmpty(ys)
  {
    if xs != [] {
      assert (xs + ys)[1..] == xs[1..] + ys;
      NonEmptyAppend(xs[1..], ys);
    } else {
      assert xs + ys == ys;
    }
  }

  lemma NonEmptyTwo(a: string, b: string)
    requires a != [] && b != []
    ensures NonEmpty([a, b]) == [a, b]
  {
    assert [a, b][1..] == [b];
    assert [b][1..] == [];
  }

  lemma NonEmptyThree(a: string, b: string, c: string)
    requires a != [] && b != [] && c != []
    ensures NonEmpty([a, b, c]) == [a, b, c]
  {
    assert [a, b, c][1..] == [b, c];
    NonEmptyTwo(b, c);
  }
}
