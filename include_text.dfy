/**
 * The two line-oriented text passes that DummyResource#load_from_file runs
 * over a custom-resource file before evaluating it:
 *
 *  - the library scan, which collects the text after `include ` on every
 *    line whose first non-blank text is `include ` (leading blanks allowed);
 *  - the rewrite, which puts `#` in front of every line that starts, at
 *    column 0, with the characters `include` (no word boundary, so
 *    `include_recipe` lines are commented out as well).
 *
 * Ruby's `^` and `$` anchor at line boundaries and `.` never matches a line
 * feed, so both regular expressions act line by line; the text is split on
 * '\n' (Lines) and joined back (Unlines).
 */
module IncludeText {
  import opened Wrappers

  // ---------------------------------------------------------------------
  // Lines

  /** The lines of `s`: split at every '\n'; a trailing '\n' leaves an empty last line. */
  function Lines(s: string): (ls: seq<string>)
    ensures |ls| >= 1
    ensures forall i :: 0 <= i < |ls| ==> '\n' !in ls[i]
    decreases |s|
  {
    if s == [] then [""]
    else
      var rest := Lines(s[1..]);
      if s[0] == '\n' then [""] + rest
      else [[s[0]] + rest[0]] + rest[1..]
  }

  /** The lines joined with '\n'. */
  function Unlines(ls: seq<string>): string
  {
    if ls == [] then ""
    else if |ls| == 1 then ls[0]
    else ls[0] + "\n" + Unlines(ls[1..])
  }

  lemma {:induction false} UnlinesPrepend(c: char, ls: seq<string>)
    requires |ls| >= 1
    ensures Unlines([[c] + ls[0]] + ls[1..]) == [c] + Unlines(ls)
  {
    var ls' := [[c] + ls[0]] + ls[1..];
    assert ls'[0] == [c] + ls[0];
    assert ls'[1..] == ls[1..];
    if |ls| > 1 {
      calc {
        Unlines(ls');
        ls'[0] + "\n" + Unlines(ls'[1..]);
        ([c] + ls[0]) + "\n" + Unlines(ls[1..]);
        [c] + (ls[0] + "\n" + Unlines(ls[1..]));
        [c] + Unlines(ls);
      }
    }
  }

  /** Splitting and joining gives the text back. */
  lemma {:induction false} UnlinesOfLines(s: string)
    ensures Unlines(Lines(s)) == s
    decreases |s|
  {
    if s != [] {
      var rest := Lines(s[1..]);
      UnlinesOfLines(s[1..]);
      if s[0] == '\n' {
        assert ([""] + rest)[1..] == rest;
      } else {
        UnlinesPrepend(s[0], rest);
      }
      assert s == [s[0]] + s[1..];
    }
  }

  lemma {:induction false} LinesOfSingleLine(x: string)
    requires '\n' !in x
    ensures Lines(x) == [x]
    decreases |x|
  {
    if x != [] {
      LinesOfSingleLine(x[1..]);
      assert x == [x[0]] + x[1..];
    }
  }

  lemma {:induction false} LinesOfNewline(x: string, y: string)
    requires '\n' !in x
    ensures Lines(x + "\n" + y) == [x] + Lines(y)
    decreases |x|
  {
    var s := x + "\n" + y;
    if x == [] {
      assert s[1..] == y;
    } else {
      assert s[1..] == x[1..] + "\n" + y;
      LinesOfNewline(x[1..], y);
      assert x == [x[0]] + x[1..];
    }
  }

  /** Joining lines that hold no '\n' and splitting again gives the lines back. */
  lemma {:induction false} LinesOfUnlines(ls: seq<string>)
    requires |ls| >= 1
    requires forall i :: 0 <= i < |ls| ==> '\n' !in ls[i]
    ensures Lines(Unlines(ls)) == ls
  {
    if |ls| == 1 {
      LinesOfSingleLine(ls[0]);
    } else {
      LinesOfUnlines(ls[1..]);
      LinesOfNewline(ls[0], Unlines(ls[1..]));
      assert ls == [ls[0]] + ls[1..];
    }
  }

  // ---------------------------------------------------------------------
  // Prefixes and blanks

  predicate StartsWith(s: string, prefix: string)
  {
    prefix <= s
  }

  /** The characters Ruby's `\s` matches, other than the line feed. */
  predicate IsBlank(c: char)
  {
    c == ' ' || c == '\t' || c == '\r' || c == '\U{C}' || c == '\U{B}'
  }

  predicate AllBlank(w: string)
  {
    forall i :: 0 <= i < |w| ==> IsBlank(w[i])
  }

  /** How many blanks the line starts with. */
  function LeadingBlanks(line: string): (n: nat)
    ensures n <= |line|
    ensures forall i :: 0 <= i < n ==> IsBlank(line[i])
    ensures n == |line| || !IsBlank(line[n])
  {
    if line != [] && IsBlank(line[0]) then 1 + LeadingBlanks(line[1..]) else 0
  }

  /** The line with its leading blanks removed. */
  function Dedent(line: string): string
  {
    line[LeadingBlanks(line)..]
  }

  /** Dedent drops a run of blanks and stops at the first non-blank. */
  lemma DedentShape(line: string)
    ensures |Dedent(line)| <= |line| && line == line[..|line| - |Dedent(line)|] + Dedent(line)
    ensures AllBlank(line[..|line| - |Dedent(line)|])
    ensures Dedent(line) == [] || !IsBlank(Dedent(line)[0])
  {
    var n := LeadingBlanks(line);
    assert AllBlank(line[..n]) by {
      forall i | 0 <= i < n ensures IsBlank(line[..n][i]) {
        assert line[..n][i] == line[i];
      }
    }
  }

  lemma {:induction false} DedentBlankPrefix(w: string, rest: string)
    requires AllBlank(w)
    requires rest == [] || !IsBlank(rest[0])
    ensures Dedent(w + rest) == rest
    decreases |w|
  {
    if w != [] {
      assert (w + rest)[1..] == w[1..] + rest;
      DedentBlankPrefix(w[1..], rest);
    }
  }

  // ---------------------------------------------------------------------
  // The library scan: /^(?:\s+)?include (?<lib>.*)$/

  const IncludePrefix: string := "include "

  /** The text captured on one line, if the line is an include statement. */
  function IncludeTarget(line: string): Option<string>
  {
    var rest := Dedent(line);
    if StartsWith(rest, IncludePrefix) then Some(rest[|IncludePrefix|..]) else None
  }

  /** A captured target is what follows `include ` after the leading blanks of the line. */
  lemma IncludeTargetSound(line: string) returns (k: nat)
    requires IncludeTarget(line).Some?
    ensures k <= |line| && AllBlank(line[..k]) && line[k..] == IncludePrefix + IncludeTarget(line).value
  {
    var rest := Dedent(line);
    k := |line| - |rest|;
    assert line[k..] == rest;
    assert rest == IncludePrefix + rest[|IncludePrefix|..];
  }

  /** A line made of blanks, `include ` and a target yields exactly that target, untrimmed. */
  lemma {:induction false} IncludeTargetOf(w: string, target: string)
    requires AllBlank(w)
    ensures IncludeTarget(w + IncludePrefix + target) == Some(target)
  {
    var rest := IncludePrefix + target;
    assert rest[0] == 'i';
    DedentBlankPrefix(w, rest);
    assert w + IncludePrefix + target == w + rest;
    assert rest[..|IncludePrefix|] == IncludePrefix;
    assert rest[|IncludePrefix|..] == target;
  }

  function Captures(ls: seq<string>): seq<string>
  {
    if ls == [] then []
    else
      (match IncludeTarget(ls[0]) case Some(t) => [t] case None => [])
      + Captures(ls[1..])
  }

  /** String#scan of the include pattern: the captured targets, in file order, duplicates kept. */
  function ScanIncludes(content: string): seq<string>
  {
    Captures(Lines(content))
  }

  lemma {:induction false} CapturesOfOneLine(line: string)
    ensures Captures([line]) == match IncludeTarget(line) case Some(t) => [t] case None => []
  {
    assert [line][1..] == [];
  }

  lemma {:induction false} CapturesAppend(a: seq<string>, b: seq<string>)
    ensures Captures(a + b) == Captures(a) + Captures(b)
  {
    if a == [] {
      assert a + b == b;
    } else {
      var ab := a + b;
      assert ab[0] == a[0] && ab[1..] == a[1..] + b;
      CapturesAppend(a[1..], b);
    }
  }

  lemma {:induction false} CapturesLength(ls: seq<string>)
    ensures |Captures(ls)| <= |ls|
  {
    if ls != [] {
      CapturesLength(ls[1..]);
    }
  }

  /** Every captured target comes from some line of the input. */
  lemma {:induction false} CapturedFrom(ls: seq<string>, t: string) returns (i: nat)
    requires t in Captures(ls)
    ensures i < |ls| && IncludeTarget(ls[i]) == Some(t)
  {
    assert ls != [];
    if IncludeTarget(ls[0]) == Some(t) {
      i := 0;
    } else {
      assert t in Captures(ls[1..]);
      var j := CapturedFrom(ls[1..], t);
      i := j + 1;
    }
  }

  /** Every include line of the input has its target captured. */
  lemma {:induction false} CapturesEvery(ls: seq<string>, i: nat)
    requires i < |ls| && IncludeTarget(ls[i]).Some?
    ensures IncludeTarget(ls[i]).value in Captures(ls)
  {
    if i > 0 {
      assert ls[1..][i - 1] == ls[i];
      CapturesEvery(ls[1..], i - 1);
    }
  }

  /**
   * The scan finds one target per include line and nothing else: the
   * captures are those of the lines taken in order.
   */
  lemma CapturesSpec(ls: seq<string>)
    ensures |Captures(ls)| <= |ls|
    ensures forall t :: t in Captures(ls) <==> exists i :: 0 <= i < |ls| && IncludeTarget(ls[i]) == Some(t)
  {
    CapturesLength(ls);
    forall t ensures t in Captures(ls) <==> exists i :: 0 <= i < |ls| && IncludeTarget(ls[i]) == Some(t) {
      if t in Captures(ls) {
        var i := CapturedFrom(ls, t);
      }
      if exists i :: 0 <= i < |ls| && IncludeTarget(ls[i]) == Some(t) {
        var i :| 0 <= i < |ls| && IncludeTarget(ls[i]) == Some(t);
        CapturesEvery(ls, i);
      }
    }
  }

  /** The lines `include t`, one per target. */
  function IncludeLines(ts: seq<string>): (ls: seq<string>)
    ensures |ls| == |ts|
    ensures forall i :: 0 <= i < |ts| ==> ls[i] == IncludePrefix + ts[i]
  {
    if ts == [] then [] else [IncludePrefix + ts[0]] + IncludeLines(ts[1..])
  }

  /**
   * Round trip: a file made of the lines `include t` for newline-free
   * targets ts scans to exactly ts.
   */
  lemma {:induction false} ScanOfIncludeLines(ts: seq<string>)
    requires forall i :: 0 <= i < |ts| ==> '\n' !in ts[i]
    ensures ScanIncludes(Unlines(IncludeLines(ts))) == ts
  {
    var ls := IncludeLines(ts);
    if ts == [] {
      assert Lines("") == [""];
      assert IncludeTarget("") == None;
    } else {
      forall i | 0 <= i < |ls| ensures '\n' !in ls[i] {
        assert '\n' !in IncludePrefix;
      }
      LinesOfUnlines(ls);
      CapturesOfIncludeLines(ts);
    }
  }

  lemma {:induction false} CapturesOfIncludeLines(ts: seq<string>)
    ensures Captures(IncludeLines(ts)) == ts
  {
    if ts != [] {
      var line := IncludePrefix + ts[0];
      var rest := IncludeLines(ts[1..]);
      var ls := [line] + rest;
      assert IncludeLines(ts) == ls;
      IncludeTargetOf("", ts[0]);
      assert "" + IncludePrefix + ts[0] == line;
      assert ls[0] == line && ls[1..] == rest;
      CapturesOfIncludeLines(ts[1..]);
      assert Captures(ls) == [ts[0]] + Captures(rest);
      assert ts == [ts[0]] + ts[1..];
    }
  }

  // ---------------------------------------------------------------------
  // The rewrite: gsub!(/^include/, '#include')

  const IncludeKeyword: string := "include"

  function RewriteLine(line: string): string
  {
    if StartsWith(line, IncludeKeyword) then "#" + line else line
  }

  function RewriteLines(ls: seq<string>): (r: seq<string>)
    ensures |r| == |ls| && forall i :: 0 <= i < |ls| ==> r[i] == RewriteLine(ls[i])
  {
    seq(|ls|, i requires 0 <= i < |ls| => RewriteLine(ls[i]))
  }

  function RewriteIncludes(content: string): string
  {
    Unlines(RewriteLines(Lines(content)))
  }

  /**
   * The rewrite keeps the number of lines; exactly the lines that start at
   * column 0 with `include` (include_recipe too) gain a leading '#', and
   * every other line, indented include lines among them, is unchanged.
   */
  lemma {:induction false} RewriteIncludesLines(content: string)
    ensures Lines(RewriteIncludes(content)) == RewriteLines(Lines(content))
    ensures |Lines(RewriteIncludes(content))| == |Lines(content)|
    ensures forall i :: 0 <= i < |Lines(content)| ==>
      Lines(RewriteIncludes(content))[i] ==
        if StartsWith(Lines(content)[i], IncludeKeyword) then "#" + Lines(content)[i] else Lines(content)[i]
  {
    var ls := RewriteLines(Lines(content));
    forall i | 0 <= i < |ls| ensures '\n' !in ls[i] {
      assert '\n' !in Lines(content)[i];
    }
    LinesOfUnlines(ls);
  }

  /** No line of the rewritten text starts with `include` any more. */
  lemma {:induction false} RewriteLeavesNoColumnZeroInclude(content: string)
    ensures forall l :: l in Lines(RewriteIncludes(content)) ==> !StartsWith(l, IncludeKeyword)
  {
    RewriteIncludesLines(content);
    var out := Lines(RewriteIncludes(content));
    forall l | l in out ensures !StartsWith(l, IncludeKeyword) {
      var i :| 0 <= i < |out| && out[i] == l;
      var line := Lines(content)[i];
      if StartsWith(line, IncludeKeyword) {
        assert l[0] == '#';
      } else {
        assert l == line;
      }
    }
  }

  /** Rewriting twice is rewriting once. */
  lemma {:induction false} RewriteIdempotent(content: string)
    ensures RewriteIncludes(RewriteIncludes(content)) == RewriteIncludes(content)
  {
    var once := RewriteIncludes(content);
    RewriteIncludesLines(content);
    RewriteLeavesNoColumnZeroInclude(content);
    assert RewriteLines(Lines(once)) == Lines(once);
    UnlinesOfLines(once);
  }

  // ---------------------------------------------------------------------
  // The quirks of the two passes, one line at a time

  /** A text without a line feed is scanned as one line. */
  lemma ScanOfSingleLine(line: string)
    requires '\n' !in line
    ensures ScanIncludes(line) == match IncludeTarget(line) case Some(t) => [t] case None => []
  {
    LinesOfSingleLine(line);
    CapturesOfOneLine(line);
  }

  /** A text without a line feed is rewritten as one line. */
  lemma RewriteOfSingleLine(line: string)
    requires '\n' !in line
    ensures RewriteIncludes(line) == RewriteLine(line)
  {
    LinesOfSingleLine(line);
    assert RewriteLines([line]) == [RewriteLine(line)];
  }

  /** `include t` is one line, and it starts with the keyword. */
  lemma IncludeLineShape(w: string, target: string)
    requires AllBlank(w) && '\n' !in target
    ensures '\n' !in w + IncludePrefix + target
    ensures StartsWith(IncludePrefix + target, IncludeKeyword)
  {
    var line := w + IncludePrefix + target;
    forall i | 0 <= i < |line| ensures line[i] != '\n' {
      if i < |w| {
        assert line[i] == w[i] && IsBlank(w[i]);
      } else if i < |w| + |IncludePrefix| {
        assert line[i] == IncludePrefix[i - |w|];
      } else {
        assert line[i] == target[i - |w| - |IncludePrefix|];
      }
    }
    assert (IncludePrefix + target)[..7] == IncludeKeyword;
  }

  /** `include t` at column 0: t is captured untrimmed and the line is commented out. */
  lemma {:induction false} ColumnZeroInclude(target: string)
    requires '\n' !in target
    ensures ScanIncludes(IncludePrefix + target) == [target]
    ensures RewriteIncludes(IncludePrefix + target) == "#" + IncludePrefix + target
  {
    var line := IncludePrefix + target;
    IncludeLineShape("", target);
    assert "" + IncludePrefix + target == line;
    ScanOfSingleLine(line);
    IncludeTargetOf("", target);
    RewriteOfSingleLine(line);
  }

  /** An indented include line is captured but left active. */
  lemma {:induction false} IndentedIncludeNotRewritten(w: string, target: string)
    requires w != [] && AllBlank(w)
    requires '\n' !in target
    ensures ScanIncludes(w + IncludePrefix + target) == [target]
    ensures RewriteIncludes(w + IncludePrefix + target) == w + IncludePrefix + target
  {
    var line := w + IncludePrefix + target;
    IncludeLineShape(w, target);
    ScanOfSingleLine(line);
    IncludeTargetOf(w, target);
    RewriteOfSingleLine(line);
    assert IsBlank(line[0]);
  }

  /**
   * A column-0 line where `include` runs on without a space, such as
   * `include_recipe ...`: commented out, yet it contributes no library.
   */
  lemma {:induction false} IncludeWithoutSpaceCommentedNotCaptured(c: char, rest: string)
    requires c != ' ' && c != '\n' && '\n' !in rest
    ensures ScanIncludes(IncludeKeyword + [c] + rest) == []
    ensures RewriteIncludes(IncludeKeyword + [c] + rest) == "#" + IncludeKeyword + [c] + rest
  {
    var line := IncludeKeyword + [c] + rest;
    assert '\n' !in line by {
      assert '\n' !in IncludeKeyword && '\n' !in [c];
    }
    assert StartsWith(line, IncludeKeyword) by {
      assert line[..7] == IncludeKeyword;
    }
    assert Dedent(line) == line by {
      assert line[0] == 'i';
    }
    assert !StartsWith(line, IncludePrefix) by {
      assert line[7] == c && IncludePrefix[7] == ' ';
    }
    ScanOfSingleLine(line);
    RewriteOfSingleLine(line);
  }

  /** A line whose first non-blank text is not `include` is neither captured nor rewritten. */
  lemma {:induction false} OtherLineUntouched(line: string)
    requires '\n' !in line
    requires !StartsWith(Dedent(line), IncludeKeyword)
    ensures ScanIncludes(line) == []
    ensures RewriteIncludes(line) == line
  {
    ScanOfSingleLine(line);
    RewriteOfSingleLine(line);
    assert !StartsWith(line, IncludeKeyword) by {
      if line != [] && !IsBlank(line[0]) {
        assert Dedent(line) == line;
      }
    }
    assert !StartsWith(Dedent(line), IncludePrefix) by {
      assert IncludeKeyword <= IncludePrefix;
    }
  }

  /** Both passes work line by line: a text is handled as its first line, then the rest. */
  lemma {:induction false} ScanSplitAtNewline(first: string, rest: string)
    requires '\n' !in first
    ensures ScanIncludes(first + "\n" + rest) == ScanIncludes(first) + ScanIncludes(rest)
  {
    LinesOfNewline(first, rest);
    LinesOfSingleLine(first);
    CapturesAppend([first], Lines(rest));
  }

  lemma {:induction false} RewriteSplitAtNewline(first: string, rest: string)
    requires '\n' !in first
    ensures RewriteIncludes(first + "\n" + rest) == RewriteIncludes(first) + "\n" + RewriteIncludes(rest)
  {
    LinesOfNewline(first, rest);
    LinesOfSingleLine(first);
    var ls := Lines(rest);
    var t := RewriteLines(ls);
    var all := RewriteLines([first] + ls);
    assert all == [RewriteLine(first)] + t by {
      assert |all| == 1 + |t|;
      forall i | 0 <= i < |all| ensures all[i] == ([RewriteLine(first)] + t)[i] {
        if i > 0 {
          assert ([first] + ls)[i] == ls[i - 1];
        }
      }
    }
    assert all[1..] == t;
    assert Unlines(all) == RewriteLine(first) + "\n" + Unlines(t);
    assert RewriteLines([first]) == [RewriteLine(first)];
  }

  /**
   * An include at column 0 followed by a line whose first non-blank text is
   * not `include` (indented, empty or not): the target is the only capture
   * and the first line alone is commented out.
   */
  lemma IncludeOnFirstLine(target: string, second: string)
    requires '\n' !in target && '\n' !in second
    requires !StartsWith(Dedent(second), IncludeKeyword)
    ensures ScanIncludes(IncludePrefix + target + "\n" + second) == [target]
    ensures RewriteIncludes(IncludePrefix + target + "\n" + second) == "#" + IncludePrefix + target + "\n" + second
  {
    var first := IncludePrefix + target;
    assert '\n' !in first by {
      forall i | 0 <= i < |first| ensures first[i] != '\n' {
        if i >= |IncludePrefix| { assert first[i] == target[i - |IncludePrefix|]; }
      }
    }
    ScanSplitAtNewline(first, second);
    RewriteSplitAtNewline(first, second);
    ColumnZeroInclude(target);
    OtherLineUntouched(second);
  }
}
