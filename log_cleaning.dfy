// `clean_log_message` of src/prod_monitoring/log_helper.py and of log_helper.py: the
// message is split into lines, a line that is blank or holds a noise pattern is
// dropped, every other line is whitespace-normalized, and the kept lines are joined
// by newlines. The two files differ only in their tuple of noise patterns, which is
// a parameter here.
module LogCleaning {
  import opened Text
  import opened Seqs

  /** `line.replace('\r', ' ').replace('\t', ' ')` */
  function ReplaceControls(line: string): (r: string)
    ensures |r| == |line|
    ensures forall k :: 0 <= k < |line| ==> r[k] == (if line[k] == '\r' || line[k] == '\t' then ' ' else line[k])
  {
    seq(|line|, k requires 0 <= k < |line| => if line[k] == '\r' || line[k] == '\t' then ' ' else line[k])
  }

  /** `' '.join(line.replace('\r', ' ').replace('\t', ' ').split())` */
  function NormalizeLine(line: string): string
  {
    Collapse(ReplaceControls(line))
  }

  /** `any(pattern in line for pattern in noise_patterns)` */
  predicate HasNoise(line: string, noise: seq<string>)
  {
    exists n :: 0 <= n < |noise| && Contains(line, noise[n])
  }

  /** The line survives the filter: it is not blank, holds no noise pattern and normalizes to something. */
  predicate KeepLine(line: string, noise: seq<string>)
  {
    !IsBlank(line) && !HasNoise(line, noise) && NormalizeLine(line) != ""
  }

  /** `cleaned_lines` after the loop over the lines. */
  function CleanLines(lines: seq<string>, noise: seq<string>): seq<string>
    decreases |lines|
  {
    if |lines| == 0 then []
    else
      var last := lines[|lines| - 1];
      CleanLines(lines[..|lines| - 1], noise) + (if KeepLine(last, noise) then [NormalizeLine(last)] else [])
  }

  /** What `clean_log_message(message)` returns. */
  function CleanText(message: string, noise: seq<string>): string
  {
    if IsBlank(message) then "" else Join("\n", CleanLines(SplitOn(message, '\n'), noise))
  }

  /** `clean_log_message` */
  method CleanLogMessage(message: string, noise: seq<string>) returns (r: string)
    ensures r == CleanText(message, noise)
    ensures IsBlank(message) ==> r == ""
  {
    StripEmptyIffBlank(message);
    if Strip(message) == "" {
      return "";
    }
    var lines := SplitOn(message, '\n');
    var cleaned: seq<string> := [];
    for i := 0 to |lines|
      invariant cleaned == CleanLines(lines[..i], noise)
    {
      CleanLinesSnoc(lines, noise, i);
      var line := lines[i];
      var stripped := Strip(line);
      StripEmptyIffBlank(line);
      if stripped != "" && !HasNoise(line, noise) {
        var normalized := NormalizeLine(line);
        if normalized != "" {
          cleaned := cleaned + [normalized];
        }
      }
    }
    TakeAll(lines);
    r := Join("\n", cleaned);
  }

  lemma CleanLinesSnoc(lines: seq<string>, noise: seq<string>, i: nat)
    requires i < |lines|
    ensures CleanLines(lines[..i + 1], noise) ==
      CleanLines(lines[..i], noise) + (if KeepLine(lines[i], noise) then [NormalizeLine(lines[i])] else [])
  {
    TakeLast(lines, i);
  }

  // ---------------------------------------------------------------------
  // What the kept lines look like

  /** An output line: non-empty, single-spaced (so no tab, CR or newline) and free of every noise pattern. */
  predicate CleanLine(l: string, noise: seq<string>)
  {
    l != "" && SingleSpaced(l) && forall n :: 0 <= n < |noise| ==> !Contains(l, noise[n])
  }

  /** A single-spaced line holds no tab, carriage return or newline. */
  lemma SingleSpacedNoControls(l: string)
    requires SingleSpaced(l)
    ensures '\t' !in l && '\r' !in l && '\n' !in l
  {
    forall k | 0 <= k < |l| ensures l[k] != '\t' && l[k] != '\r' && l[k] != '\n' {
      if IsSpace(l[k]) {
        assert l[k] == ' ';
      }
    }
  }

  /** An occurrence of a pattern without whitespace cannot cover a whitespace position. */
  lemma OccurrenceAvoidsSpace(s: string, i: nat, p: string, x: nat)
    requires OccursAt(s, i, p) && NoSpaceIn(p) && x < |s| && IsSpace(s[x])
    ensures x < i || i + |p| <= x
  {
    forall k | 0 <= k < |p| ensures s[i + k] == p[k] {
      assert s[i..i + |p|][k] == s[i + k];
    }
  }

  lemma OccursShift(s: string, a: nat, w: string, b: nat, p: string)
    requires OccursAt(s, a, w) && OccursAt(w, b, p)
    ensures OccursAt(s, a + b, p)
  {
    forall k | 0 <= k < |p| ensures s[a + b + k] == p[k] {
      assert w[b..b + |p|][k] == w[b + k];
      assert s[a..a + |w|][b + k] == s[a + b + k];
    }
    assert s[a + b..a + b + |p|] == p;
  }

  /** Replacing tabs and carriage returns by spaces creates no occurrence of a pattern without whitespace. */
  lemma ReplaceControlsKeepsOccurrences(line: string, p: string)
    requires NoSpaceIn(p) && Contains(ReplaceControls(line), p)
    ensures Contains(line, p)
  {
    var t := ReplaceControls(line);
    var i :| 0 <= i <= |t| && OccursAt(t, i, p);
    forall k | 0 <= k < |p| ensures line[i + k] == p[k] {
      assert t[i..i + |p|][k] == t[i + k];
      assert t[i + k] == p[k] && p[k] != ' ';
    }
    assert line[i..i + |p|] == p;
    assert OccursAt(line, i, p);
  }

  /** Each word of str.split() occurs in the text it came from. */
  lemma {:induction false} WordsOccur(s: string)
    ensures forall j :: 0 <= j < |Words(s)| ==> Contains(s, Words(s)[j])
    decreases |s|
  {
    if s == [] {
    } else if IsSpace(s[0]) {
      WordsOccur(s[1..]);
      assert Words(s) == Words(s[1..]);
      forall j | 0 <= j < |Words(s)| ensures Contains(s, Words(s)[j]) {
        var w := Words(s)[j];
        var i :| 0 <= i <= |s[1..]| && OccursAt(s[1..], i, w);
        assert OccursAt(s, 1, s[1..]);
        OccursShift(s, 1, s[1..], i, w);
      }
    } else {
      var e := RunEnd(s, 0, NonSpace);
      WordsOccur(s[e..]);
      assert Words(s) == [s[..e]] + Words(s[e..]);
      forall j | 0 <= j < |Words(s)| ensures Contains(s, Words(s)[j]) {
        var w := Words(s)[j];
        if j == 0 {
          assert OccursAt(s, 0, w);
        } else {
          assert w == Words(s[e..])[j - 1];
          var i :| 0 <= i <= |s[e..]| && OccursAt(s[e..], i, w);
          assert OccursAt(s, e, s[e..]);
          OccursShift(s, e, s[e..], i, w);
        }
      }
    }
  }

  /** A non-empty pattern without whitespace that occurs in a space-joined list occurs in one of its items. */
  lemma {:induction false} JoinSpaceOccurrence(ws: seq<string>, p: string)
    requires p != [] && NoSpaceIn(p) && Contains(Join(" ", ws), p)
    ensures exists j :: 0 <= j < |ws| && Contains(ws[j], p)
    decreases |ws|
  {
    if |ws| == 1 {
      assert Contains(ws[0], p);
    } else if |ws| > 1 {
      var w, rest := ws[0], Join(" ", ws[1..]);
      var s := Join(" ", ws);
      assert s == w + " " + rest;
      var i :| 0 <= i <= |s| && OccursAt(s, i, p);
      assert s[|w|] == ' ';
      OccurrenceAvoidsSpace(s, i, p, |w|);
      if i + |p| <= |w| {
        assert s[i..i + |p|] == w[i..i + |p|];
        assert OccursAt(w, i, p);
      } else {
        assert s[i..i + |p|] == rest[i - |w| - 1..i - |w| - 1 + |p|];
        assert OccursAt(rest, i - |w| - 1, p);
        JoinSpaceOccurrence(ws[1..], p);
        var j :| 0 <= j < |ws[1..]| && Contains(ws[1..][j], p);
        assert ws[1..][j] == ws[j + 1];
      }
    }
  }

  /** Normalizing a line creates no occurrence of a pattern without whitespace. */
  lemma NormalizeKeepsOccurrences(line: string, p: string)
    requires NoSpaceIn(p) && Contains(NormalizeLine(line), p)
    ensures Contains(line, p)
  {
    var t := ReplaceControls(line);
    if p == [] {
      assert OccursAt(line, 0, p);
    } else {
      JoinSpaceOccurrence(Words(t), p);
      var j :| 0 <= j < |Words(t)| && Contains(Words(t)[j], p);
      WordsOccur(t);
      var a :| 0 <= a <= |t| && OccursAt(t, a, Words(t)[j]);
      var b :| 0 <= b <= |Words(t)[j]| && OccursAt(Words(t)[j], b, p);
      OccursShift(t, a, Words(t)[j], b, p);
      ReplaceControlsKeepsOccurrences(line, p);
    }
  }

  /**
   * Every line `clean_log_message` keeps is non-empty, single-spaced and free of the noise
   * patterns, provided no pattern holds whitespace (none of the program's does).
   */
  lemma {:induction false} CleanLinesAreClean(lines: seq<string>, noise: seq<string>)
    requires forall n :: 0 <= n < |noise| ==> NoSpaceIn(noise[n])
    ensures forall j :: 0 <= j < |CleanLines(lines, noise)| ==> CleanLine(CleanLines(lines, noise)[j], noise)
    decreases |lines|
  {
    if |lines| > 0 {
      var last := lines[|lines| - 1];
      CleanLinesAreClean(lines[..|lines| - 1], noise);
      if KeepLine(last, noise) {
        var l := NormalizeLine(last);
        CollapseSingleSpaced(ReplaceControls(last));
        forall n | 0 <= n < |noise| ensures !Contains(l, noise[n]) {
          if Contains(l, noise[n]) {
            NormalizeKeepsOccurrences(last, noise[n]);
          }
        }
      }
    }
  }

  /** Kept lines stay in input order: cleaning distributes over concatenation. */
  lemma {:induction false} CleanLinesAppend(a: seq<string>, b: seq<string>, noise: seq<string>)
    ensures CleanLines(a + b, noise) == CleanLines(a, noise) + CleanLines(b, noise)
    decreases |b|
  {
    if |b| == 0 {
      assert a + b == a;
    } else {
      var init := b[..|b| - 1];
      assert (a + b)[..|a + b| - 1] == a + init;
      assert (a + b)[|a + b| - 1] == b[|b| - 1];
      CleanLinesAppend(a, init, noise);
    }
  }

  lemma IndexOfAbsent(s: string, c: char)
    requires c !in s
    ensures IndexOf(s, c) == |s|
  {
    forall k | 0 <= k < |s| ensures s[k] != c {
      assert s[k] in s;
    }
  }

  lemma IndexOfAfter(p: string, c: char, rest: string)
    requires c !in p
    ensures IndexOf(p + [c] + rest, c) == |p|
  {
    var s := p + [c] + rest;
    assert s[|p|] == c;
    forall k | 0 <= k < |p| ensures s[k] != c {
      assert s[k] == p[k];
      assert p[k] in p;
    }
  }

  /** Splitting separator-joined parts without the separator gives the parts back. */
  lemma {:induction false} SplitOnJoin(parts: seq<string>, c: char)
    requires |parts| >= 1
    requires forall k :: 0 <= k < |parts| ==> c !in parts[k]
    ensures SplitOn(Join([c], parts), c) == parts
    decreases |parts|
  {
    var s := Join([c], parts);
    if |parts| == 1 {
      IndexOfAbsent(s, c);
    } else {
      var p0, rest := parts[0], Join([c], parts[1..]);
      assert s == p0 + [c] + rest;
      IndexOfAfter(p0, c, rest);
      assert s[..|p0|] == p0;
      assert s[|p0| + 1..] == rest;
      assert SplitOn(s, c) == [p0] + SplitOn(rest, c);
      assert forall k :: 0 <= k < |parts| - 1 ==> parts[1..][k] == parts[k + 1];
      SplitOnJoin(parts[1..], c);
      assert parts == [p0] + parts[1..];
    }
  }

  /**
   * The output keeps its line structure: split on newlines it gives back exactly the
   * kept lines (an output without kept lines is the empty text).
   */
  lemma CleanTextLines(message: string, noise: seq<string>)
    requires forall n :: 0 <= n < |noise| ==> NoSpaceIn(noise[n])
    requires !IsBlank(message)
    ensures var ls := CleanLines(SplitOn(message, '\n'), noise);
            if ls == [] then CleanText(message, noise) == ""
            else SplitOn(CleanText(message, noise), '\n') == ls
  {
    var ls := CleanLines(SplitOn(message, '\n'), noise);
    CleanLinesAreClean(SplitOn(message, '\n'), noise);
    forall k | 0 <= k < |ls| ensures '\n' !in ls[k] {
      SingleSpacedNoControls(ls[k]);
    }
    if ls != [] {
      SplitOnJoin(ls, '\n');
    }
  }


  /** A kept line, once normalized, is kept again and normalizes to itself. */
  lemma KeptLineStable(line: string, noise: seq<string>)
    requires forall n :: 0 <= n < |noise| ==> NoSpaceIn(noise[n])
    requires KeepLine(line, noise)
    ensures KeepLine(NormalizeLine(line), noise)
    ensures NormalizeLine(NormalizeLine(line)) == NormalizeLine(line)
  {
    var r := ReplaceControls(line);
    var l := Collapse(r);
    CollapseSingleSpaced(r);
    SingleSpacedNoControls(l);
    assert ReplaceControls(l) == l by {
      forall k | 0 <= k < |l| ensures l[k] != '\r' && l[k] != '\t' {
        assert l[k] in l;
      }
    }
    CollapseIdempotent(r);
    assert l[0] != ' ' && !IsSpace(l[0]);
    forall n | 0 <= n < |noise| ensures !Contains(l, noise[n]) {
      if Contains(l, noise[n]) {
        NormalizeKeepsOccurrences(line, noise[n]);
      }
    }
  }

  /** Cleaning the kept lines again keeps all of them unchanged. */
  lemma {:induction false} CleanLinesIdempotent(lines: seq<string>, noise: seq<string>)
    requires forall n :: 0 <= n < |noise| ==> NoSpaceIn(noise[n])
    ensures CleanLines(CleanLines(lines, noise), noise) == CleanLines(lines, noise)
    decreases |lines|
  {
    if |lines| > 0 {
      var init, last := lines[..|lines| - 1], lines[|lines| - 1];
      CleanLinesIdempotent(init, noise);
      if KeepLine(last, noise) {
        var l := NormalizeLine(last);
        KeptLineStable(last, noise);
        assert [l][..0] == [];
        assert CleanLines([l], noise) == [l];
        CleanLinesAppend(CleanLines(init, noise), [l], noise);
        assert CleanLines(lines, noise) == CleanLines(init, noise) + [l];
        assert CleanLines(CleanLines(init, noise) + [l], noise) == CleanLines(init, noise) + [l];
      } else {
        assert CleanLines(lines, noise) == CleanLines(init, noise);
      }
    }
  }

  /** `clean_log_message` is idempotent: a cleaned message comes back unchanged. */
  lemma CleanTextIdempotent(message: string, noise: seq<string>)
    requires forall n :: 0 <= n < |noise| ==> NoSpaceIn(noise[n])
    ensures CleanText(CleanText(message, noise), noise) == CleanText(message, noise)
  {
    if !IsBlank(message) {
      var ls := CleanLines(SplitOn(message, '\n'), noise);
      var t := Join("\n", ls);
      if ls != [] {
        CleanTextLines(message, noise);
        CleanLinesAreClean(SplitOn(message, '\n'), noise);
        assert CleanLine(ls[0], noise);
        assert t[0] == ls[0][0] by {
          if |ls| > 1 {
            assert t == ls[0] + "\n" + Join("\n", ls[1..]);
          }
        }
        assert !IsSpace(t[0]);
        CleanLinesIdempotent(SplitOn(message, '\n'), noise);
      }
    }
  }
}
