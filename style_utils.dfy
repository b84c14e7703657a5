/** The two string helpers of src/utils/index.mjs: choosing the line terminator a script file is
    written back with, and recognising an import of a global (non-module) style sheet. */
module StyleUtils {

  /** `t` occurs in `s` starting at position `i`. */
  predicate OccursAt(s: string, t: string, i: nat) {
    i + |t| <= |s| && s[i..i + |t|] == t
  }

  /** `s.includes(t)` */
  function Includes(s: string, t: string): (r: bool)
    ensures r <==> exists i: nat :: OccursAt(s, t, i)
    decreases |s|
  {
    if |t| > |s| then false
    else if s[..|t|] == t then assert OccursAt(s, t, 0); true
    else
      var r := Includes(s[1..], t);
      assert r ==> exists i: nat :: OccursAt(s, t, i) by {
        if r {
          var j: nat :| OccursAt(s[1..], t, j);
          assert s[1..][j..j + |t|] == s[j + 1..j + 1 + |t|];
          assert OccursAt(s, t, j + 1);
        }
      }
      assert (exists i: nat :: OccursAt(s, t, i)) ==> r by {
        if exists i: nat :: OccursAt(s, t, i) {
          var i: nat :| OccursAt(s, t, i);
          assert i != 0;
          assert s[1..][i - 1..i - 1 + |t|] == s[i..i + |t|];
          assert OccursAt(s[1..], t, i - 1);
        }
      }
      r
  }

  /** Some carriage return is immediately followed by a line feed. */
  predicate HasCrLf(s: string) {
    exists i :: 0 <= i < |s| - 1 && s[i] == '\r' && s[i + 1] == '\n'
  }

  lemma IncludesCrLf(s: string)
    ensures Includes(s, "\r\n") <==> HasCrLf(s)
  {
    if HasCrLf(s) {
      var i :| 0 <= i < |s| - 1 && s[i] == '\r' && s[i + 1] == '\n';
      assert s[i..i + 2] == "\r\n";
      assert OccursAt(s, "\r\n", i);
    }
    if Includes(s, "\r\n") {
      var i: nat :| OccursAt(s, "\r\n", i);
      assert s[i] == s[i..i + 2][0] && s[i + 1] == s[i..i + 2][1];
    }
  }

  /** `detectNewlineCharacter`: CRLF when the text holds one, LF in every other case,
      a text that has only lone carriage returns included. */
  function DetectNewline(s: string): (r: string)
    ensures r == "\r\n" <==> HasCrLf(s)
    ensures r != "\r\n" ==> r == "\n"
  {
    IncludesCrLf(s);
    if Includes(s, "\r\n") then "\r\n"
    else if Includes(s, "\n") then "\n"
    else if Includes(s, "\r") then "\n"
    else "\n"
  }

  predicate StartsWith(s: string, t: string) {
    |t| <= |s| && s[..|t|] == t
  }

  /** One of the alternatives `css|scss|sass|less|styl` of `globalStyleRegex` starts at `i`. */
  predicate ExtensionAt(s: string, i: nat)
    requires i <= |s|
  {
    var rest := s[i..];
    StartsWith(rest, "css") || StartsWith(rest, "scss") || StartsWith(rest, "sass")
    || StartsWith(rest, "less") || StartsWith(rest, "styl")
  }

  /** The extensions the regular expression recognises. */
  predicate IsGlobalExtension(ext: string) {
    ext == "css" || ext == "scss" || ext == "sass" || ext == "less" || ext == "styl"
  }

  /** `/(?<!\.module)\.(css|scss|sass|less|styl)/` matches at position `i`: a dot, one of the
      extensions right after it, and the seven characters before the dot are not `.module`. */
  predicate MatchAt(s: string, i: nat) {
    i < |s| && s[i] == '.' && ExtensionAt(s, i + 1)
    && !(i >= 7 && s[i - 7..i] == ".module")
  }

  function GlobalFrom(s: string, i: nat): (r: bool)
    requires i <= |s|
    ensures r <==> exists j :: i <= j < |s| && MatchAt(s, j)
    decreases |s| - i
  {
    if i == |s| then false
    else MatchAt(s, i) || GlobalFrom(s, i + 1)
  }

  /** `isGlobalStyle`: `RegExp.prototype.test` looks for a match anywhere in the name. */
  function IsGlobalStyle(name: string): (r: bool)
    ensures r <==> exists j :: 0 <= j < |name| && MatchAt(name, j)
  {
    GlobalFrom(name, 0)
  }

  /** A name that ends in a dot and an extension the regular expression lists is a global
      style sheet, unless that dot is preceded by `.module`. */
  lemma PlainStyleNameIsGlobal(x: string, ext: string)
    requires IsGlobalExtension(ext)
    requires !(|x| >= 7 && x[|x| - 7..] == ".module")
    ensures IsGlobalStyle(x + "." + ext)
  {
    var s := x + "." + ext;
    assert s[|x| + 1..] == ext;
    assert StartsWith(s[|x| + 1..], ext);
    if |x| >= 7 {
      assert s[|x| - 7..|x|] == x[|x| - 7..];
    }
    assert MatchAt(s, |x|);
  }

  /** An extension made of letters cannot run past the end of `x` into a suffix starting
      with a dot. */
  lemma ExtensionStaysInside(x: string, suffix: string, i: nat, ext: string)
    requires i <= |x| && |suffix| > 0 && suffix[0] == '.'
    requires forall k :: 0 <= k < |ext| ==> ext[k] != '.'
    requires StartsWith((x + suffix)[i..], ext)
    ensures StartsWith(x[i..], ext)
  {
    var s := x + suffix;
    assert s[|x|] == '.';
    assert forall k :: 0 <= k < |ext| && i + k < |s| ==> s[i + k] == s[i..][..|ext|][k] != '.';
    assert i + |ext| <= |x|;
    assert x[i..][..|ext|] == s[i..][..|ext|];
  }

  lemma MatchStaysInside(x: string, suffix: string, j: nat)
    requires j < |x| && |suffix| > 0 && suffix[0] == '.'
    requires MatchAt(x + suffix, j)
    ensures MatchAt(x, j)
  {
    var s := x + suffix;
    assert s[j] == x[j];
    assert j + 1 <= |x|;
    if StartsWith(s[j + 1..], "css") { ExtensionStaysInside(x, suffix, j + 1, "css"); }
    if StartsWith(s[j + 1..], "scss") { ExtensionStaysInside(x, suffix, j + 1, "scss"); }
    if StartsWith(s[j + 1..], "sass") { ExtensionStaysInside(x, suffix, j + 1, "sass"); }
    if StartsWith(s[j + 1..], "less") { ExtensionStaysInside(x, suffix, j + 1, "less"); }
    if StartsWith(s[j + 1..], "styl") { ExtensionStaysInside(x, suffix, j + 1, "styl"); }
    if j >= 7 {
      assert s[j - 7..j] == x[j - 7..j];
    }
  }

  /** No match starts inside the suffix `.module.<ext>`: its first dot is followed by `m`,
      its last dot by `.module`, and the other characters are letters. */
  lemma SuffixHasNoMatch(x: string, ext: string, k: nat)
    requires IsGlobalExtension(ext)
    requires k < |".module." + ext|
    ensures !MatchAt(x + ".module." + ext, |x| + k)
  {
    var suffix := ".module." + ext;
    var s := x + suffix;
    assert s == x + ".module." + ext;
    var j := |x| + k;
    assert s[j] == suffix[k];
    if k == 0 {
      assert s[j + 1] == 'm';
      assert s[j + 1..][0] == 'm';
    } else if k == 7 {
      assert s[j - 7..j] == ".module";
    } else if k > 7 {
      assert suffix[k] == ext[k - 8];
    }
  }

  /** A name `x.module.<ext>` is not a global style sheet when `x` is not one: no match can
      reach into the `.module.<ext>` suffix, and the last dot is shielded by `.module`. */
  lemma ModuleStyleNameIsNotGlobal(x: string, ext: string)
    requires IsGlobalExtension(ext)
    requires !IsGlobalStyle(x)
    ensures !IsGlobalStyle(x + ".module." + ext)
  {
    var suffix := ".module." + ext;
    var s := x + suffix;
    assert s == x + ".module." + ext;
    forall j | 0 <= j < |s|
      ensures !MatchAt(s, j)
    {
      if j < |x| {
        if MatchAt(s, j) {
          MatchStaysInside(x, suffix, j);
        }
      } else {
        SuffixHasNoMatch(x, ext, j - |x|);
      }
    }
  }
}
