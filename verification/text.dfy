/** String operations of JavaScript's `String.prototype`, on strings as sequences of characters. */
module Text {
  import opened Wrappers
  import opened Seqs

  /** What JavaScript's `trim` strips and the regular-expression class `\s` matches:
      white space and line terminators. */
  predicate IsSpace(c: char) {
    || c == ' ' || c == '\t' || c == '\n' || c == '\U{B}' || c == '\U{C}' || c == '\r'
    || c == '\U{A0}' || c == '\U{1680}' || ('\U{2000}' <= c <= '\U{200A}')
    || c == '\U{2028}' || c == '\U{2029}' || c == '\U{202F}' || c == '\U{205F}'
    || c == '\U{3000}' || c == '\U{FEFF}'
  }

  ghost predicate All(s: string, p: char -> bool) {
    forall i :: 0 <= i < |s| ==> p(s[i])
  }

  /** The longest suffix of `s` that does not start with a character `p` accepts. */
  function DropWhile(s: string, p: char -> bool): (r: string)
    ensures |r| <= |s| && r == s[|s| - |r|..]
    ensures All(s[..|s| - |r|], p)
    ensures |r| > 0 ==> !p(r[0])
  {
    if |s| > 0 && p(s[0]) then DropWhile(s[1..], p) else s
  }

  /** A last character `p` does not accept survives `DropWhile`. */
  lemma {:induction false} DropWhileKeepsLast(s: string, p: char -> bool)
    requires |s| > 0 && !p(s[|s| - 1])
    ensures |DropWhile(s, p)| > 0
  {
    if p(s[0]) {
      assert |s| > 1;
      assert s[1..][|s| - 2] == s[|s| - 1];
      DropWhileKeepsLast(s[1..], p);
    }
  }

  /** The longest prefix of `s` that does not end with a character `p` accepts. */
  function DropLastWhile(s: string, p: char -> bool): (r: string)
    ensures |r| <= |s| && r == s[..|r|]
    ensures All(s[|r|..], p)
    ensures |r| > 0 ==> !p(r[|r| - 1])
  {
    if |s| > 0 && p(s[|s| - 1]) then DropLastWhile(s[..|s| - 1], p) else s
  }

  /** `s.trim()`: the middle of `s` with the white space on both ends cut away. */
  function Trim(s: string): (r: string)
    ensures |r| <= |s|
    ensures |r| > 0 ==> !IsSpace(r[0]) && !IsSpace(r[|r| - 1])
  {
    DropLastWhile(DropWhile(s, IsSpace), IsSpace)
  }

  /** `s` is its trimmed text with white space before and after it. */
  lemma TrimSplit(s: string) returns (pre: string, post: string)
    ensures s == pre + (Trim(s) + post)
    ensures All(pre, IsSpace) && All(post, IsSpace)
  {
    pre, post := DropBothEnds(s, IsSpace);
  }

  /** `s` is what dropping `p` characters from both ends leaves, with `p` characters
      before and after it. */
  lemma DropBothEnds(s: string, p: char -> bool) returns (pre: string, post: string)
    ensures s == pre + (DropLastWhile(DropWhile(s, p), p) + post)
    ensures All(pre, p) && All(post, p)
  {
    var front := DropWhile(s, p);
    var r := DropLastWhile(front, p);
    pre, post := s[..|s| - |front|], front[|r|..];
    SuffixSplit(s, front);
    PrefixSplit(front, r);
  }

  /** `!s.trim()`: the string is empty or white space only. */
  predicate IsBlank(s: string) {
    Trim(s) == ""
  }

  lemma BlankIffAllSpace(s: string)
    ensures IsBlank(s) <==> All(s, IsSpace)
  {
    var pre, post := TrimSplit(s);
    var t := Trim(s);
    if IsBlank(s) {
      AllAppend(pre, post, IsSpace);
      assert s == pre + post;
    }
  }

  lemma AllAppend(a: string, b: string, p: char -> bool)
    requires All(a, p) && All(b, p)
    ensures All(a + b, p)
  {
    forall i | 0 <= i < |a + b|
      ensures p((a + b)[i])
    {
      if i < |a| {
        assert (a + b)[i] == a[i];
      } else {
        assert (a + b)[i] == b[i - |a|];
      }
    }
  }

  /** A string with no white space at either end is its own trim. */
  lemma TrimOfTrimmed(s: string)
    requires |s| > 0 ==> !IsSpace(s[0]) && !IsSpace(s[|s| - 1])
    ensures Trim(s) == s
  {
    var pre, post := TrimSplit(s);
    var t := Trim(s);
    assert s == t;
  }

  function LowerChar(c: char): char {
    if 'A' <= c <= 'Z' then (c as int + 32) as char else c
  }

  /** `toLowerCase` restricted to the ASCII letters. */
  function LowerAscii(s: string): (r: string)
    ensures |r| == |s| && forall i :: 0 <= i < |s| ==> r[i] == LowerChar(s[i])
  {
    if |s| == 0 then "" else [LowerChar(s[0])] + LowerAscii(s[1..])
  }

  predicate StartsWith(s: string, prefix: string) {
    |prefix| <= |s| && s[..|prefix|] == prefix
  }

  predicate OccursAt(s: string, needle: string, j: int) {
    0 <= j && j + |needle| <= |s| && s[j..j + |needle|] == needle
  }

  /** `hay.includes(needle)`, computed by trying every start position. */
  predicate Contains(hay: string, needle: string)
    decreases |hay|
  {
    StartsWith(hay, needle) || (|hay| > 0 && Contains(hay[1..], needle))
  }

  lemma {:induction false} ContainsIff(hay: string, needle: string)
    ensures Contains(hay, needle) <==> exists j :: OccursAt(hay, needle, j)
    decreases |hay|
  {
    if StartsWith(hay, needle) {
      assert OccursAt(hay, needle, 0);
    } else if |hay| > 0 {
      ContainsIff(hay[1..], needle);
      if exists j :: OccursAt(hay[1..], needle, j) {
        var j :| OccursAt(hay[1..], needle, j);
        assert hay[1..][j..j + |needle|] == hay[j + 1..j + 1 + |needle|];
        assert OccursAt(hay, needle, j + 1);
      }
      if exists j :: OccursAt(hay, needle, j) {
        var j :| OccursAt(hay, needle, j);
        assert j != 0;
        assert hay[1..][j - 1..j - 1 + |needle|] == hay[j..j + |needle|];
        assert OccursAt(hay[1..], needle, j - 1);
      }
    } else {
      assert forall j :: !OccursAt(hay, needle, j);
    }
  }

  /** The first position at or after `from` where `sep` occurs (the search inside `split`). */
  function IndexFrom(s: string, sep: string, from: nat): (r: Option<nat>)
    requires from <= |s|
    ensures r.Some? ==> from <= r.value && OccursAt(s, sep, r.value)
    ensures r.Some? ==> forall j :: from <= j < r.value ==> !OccursAt(s, sep, j)
    ensures r.None? ==> forall j :: from <= j ==> !OccursAt(s, sep, j)
    decreases |s| - from
  {
    if from + |sep| > |s| then None
    else if s[from..from + |sep|] == sep then Some(from)
    else if from == |s| then None
    else IndexFrom(s, sep, from + 1)
  }

  /** `parts.join(sep)`. */
  function Join(parts: seq<string>, sep: string): string {
    if |parts| == 0 then ""
    else if |parts| == 1 then parts[0]
    else parts[0] + sep + Join(parts[1..], sep)
  }

  /** `s.split(sep)` for a non-empty separator: cut at every occurrence, scanning from the left. */
  function Split(s: string, sep: string): (parts: seq<string>)
    requires |sep| > 0
    ensures |parts| >= 1
    ensures Join(parts, sep) == s
    ensures forall k, j :: 0 <= k < |parts| ==> !OccursAt(parts[k], sep, j)
    decreases |s|
  {
    match IndexFrom(s, sep, 0)
    case None => [s]
    case Some(i) =>
      var head := s[..i];
      var rest := Split(s[i + |sep|..], sep);
      assert forall j :: OccursAt(head, sep, j) ==> s[j..j + |sep|] == head[j..j + |sep|] && OccursAt(s, sep, j);
      assert ([head] + rest)[1..] == rest;
      assert s == head + sep + s[i + |sep|..];
      [head] + rest
  }

  /** Splitting undoes joining when the separator's first character occurs in no part but the last,
      and the separator itself does not occur in the last part. */
  lemma {:induction false} SplitOfJoin(parts: seq<string>, sep: string)
    requires |sep| > 0 && |parts| >= 1
    requires forall k :: 0 <= k < |parts| - 1 ==> sep[0] !in parts[k]
    requires !Contains(parts[|parts| - 1], sep)
    ensures Split(Join(parts, sep), sep) == parts
  {
    var s := Join(parts, sep);
    if |parts| == 1 {
      ContainsIff(s, sep);
      assert IndexFrom(s, sep, 0).None?;
    } else {
      var p0 := parts[0];
      var rest := Join(parts[1..], sep);
      assert s == p0 + sep + rest;
      assert OccursAt(s, sep, |p0|) by {
        assert s[|p0|..|p0| + |sep|] == sep;
      }
      forall j | 0 <= j < |p0|
        ensures !OccursAt(s, sep, j)
      {
        assert s[j] == p0[j];
      }
      var idx := IndexFrom(s, sep, 0);
      assert idx == Some(|p0|);
      assert s[|p0| + |sep|..] == rest;
      SplitOfJoin(parts[1..], sep);
      assert parts == [p0] + parts[1..];
    }
  }

  /** `s.replace(/[class]/g, "")`: drops every character `p` accepts. */
  function Strip(s: string, p: char -> bool): (r: string)
    ensures |r| <= |s|
    ensures forall i :: 0 <= i < |r| ==> !p(r[i])
  {
    if |s| == 0 then "" else (if p(s[0]) then "" else [s[0]]) + Strip(s[1..], p)
  }

  lemma {:induction false} StripAppend(a: string, b: string, p: char -> bool)
    ensures Strip(a + b, p) == Strip(a, p) + Strip(b, p)
  {
    if |a| == 0 {
      assert a + b == b;
    } else {
      assert (a + b)[1..] == a[1..] + b;
      StripAppend(a[1..], b, p);
    }
  }

  lemma {:induction false} StripAll(s: string, p: char -> bool)
    requires All(s, p)
    ensures Strip(s, p) == ""
  {
    if |s| > 0 {
      StripAll(s[1..], p);
    }
  }

  /** Stripping ends made only of `p` characters leaves the middle's stripped form. */
  lemma StripBetween(s: string, pre: string, mid: string, post: string, p: char -> bool)
    requires s == pre + (mid + post) && All(pre, p) && All(post, p)
    ensures Strip(s, p) == Strip(mid, p)
  {
    StripAppend(pre, mid + post, p);
    StripAppend(mid, post, p);
    StripAll(pre, p);
    StripAll(post, p);
  }

  /** Characters with no `p` character among them survive stripping unchanged. */
  lemma {:induction false} StripNone(s: string, p: char -> bool)
    requires forall i :: 0 <= i < |s| ==> !p(s[i])
    ensures Strip(s, p) == s
  {
    if |s| > 0 {
      StripNone(s[1..], p);
      assert s == [s[0]] + s[1..];
    }
  }

  /** Stripping a smaller class first changes nothing about stripping a larger one. */
  lemma {:induction false} StripStrip(s: string, p: char -> bool, q: char -> bool)
    requires forall c :: p(c) ==> q(c)
    ensures Strip(Strip(s, p), q) == Strip(s, q)
  {
    if |s| > 0 {
      StripStrip(s[1..], p, q);
      StripAppend(if p(s[0]) then "" else [s[0]], Strip(s[1..], p), q);
      if !p(s[0]) {
        assert Strip([s[0]], q) == (if q(s[0]) then "" else [s[0]]) + Strip([], q);
      }
    }
  }

  /** Trimming changes nothing about stripping a class that contains the white space. */
  lemma StripTrim(s: string, q: char -> bool)
    requires forall c :: IsSpace(c) ==> q(c)
    ensures Strip(Trim(s), q) == Strip(s, q)
  {
    var pre, post := TrimSplit(s);
    AllWiden(pre, IsSpace, q);
    AllWiden(post, IsSpace, q);
    StripBetween(s, pre, Trim(s), post, q);
  }

  lemma AllWiden(s: string, p: char -> bool, q: char -> bool)
    requires All(s, p) && forall c :: p(c) ==> q(c)
    ensures All(s, q)
  {
    forall i | 0 <= i < |s|
      ensures q(s[i])
    {
      assert p(s[i]);
    }
  }

  /** Lower-casing commutes with stripping a class that lower-casing maps onto itself. */
  lemma {:induction false} StripLower(s: string, q: char -> bool)
    requires forall c :: q(LowerChar(c)) == q(c)
    ensures Strip(LowerAscii(s), q) == LowerAscii(Strip(s, q))
  {
    if |s| > 0 {
      StripLower(s[1..], q);
      assert LowerAscii(s)[1..] == LowerAscii(s[1..]);
      var head: string := if q(s[0]) then "" else [s[0]];
      assert LowerAscii(head + Strip(s[1..], q)) == LowerAscii(head) + LowerAscii(Strip(s[1..], q));
    }
  }

  /** `s.replace(/<p>+/g, rep)`: every maximal run of `p` characters becomes the single character `rep`. */
  function CollapseRuns(s: string, p: char -> bool, rep: char): (r: string)
    requires p(rep)
    ensures |r| == 0 <==> |s| == 0
    ensures |s| > 0 ==> r[0] == if p(s[0]) then rep else s[0]
    decreases |s|
  {
    if |s| == 0 then ""
    else if p(s[0]) then [rep] + CollapseRuns(DropWhile(s, p), p, rep)
    else [s[0]] + CollapseRuns(s[1..], p, rep)
  }

  /** Every `p` character of `r` is `rep`, and no two `p` characters are adjacent. */
  ghost predicate RunsCollapsed(r: string, p: char -> bool, rep: char) {
    && (forall i :: 0 <= i < |r| && p(r[i]) ==> r[i] == rep)
    && (forall i :: 0 <= i < |r| - 1 ==> !(p(r[i]) && p(r[i + 1])))
  }

  lemma {:induction false} CollapseRunsShape(s: string, p: char -> bool, rep: char)
    requires p(rep)
    ensures RunsCollapsed(CollapseRuns(s, p, rep), p, rep)
    decreases |s|
  {
    if |s| > 0 {
      var r := CollapseRuns(s, p, rep);
      var rest := if p(s[0]) then DropWhile(s, p) else s[1..];
      CollapseRunsShape(rest, p, rep);
      var tail := CollapseRuns(rest, p, rep);
      assert r == [r[0]] + tail;
      assert forall i :: 0 < i < |r| ==> r[i] == tail[i - 1];
      assert p(s[0]) ==> |rest| == 0 || !p(rest[0]);
      assert |tail| > 0 ==> tail[0] == (if p(rest[0]) then rep else rest[0]);
      assert p(r[0]) ==> r[0] == rep;
      forall i | 0 <= i < |r| && p(r[i])
        ensures r[i] == rep
      {
        if i > 0 {
          assert r[i] == tail[i - 1];
        }
      }
      forall i | 0 <= i < |r| - 1
        ensures !(p(r[i]) && p(r[i + 1]))
      {
        if i > 0 {
          assert r[i] == tail[i - 1] && r[i + 1] == tail[i];
        }
      }
    }
  }

  /** Collapsing keeps every character outside the class, in order. */
  lemma {:induction false} CollapseRunsKeeps(s: string, p: char -> bool, rep: char)
    requires p(rep)
    ensures Strip(CollapseRuns(s, p, rep), p) == Strip(s, p)
    decreases |s|
  {
    if |s| > 0 {
      var r := CollapseRuns(s, p, rep);
      if p(s[0]) {
        var rest := DropWhile(s, p);
        var run := s[..|s| - |rest|];
        assert s == run + rest;
        StripAppend(run, rest, p);
        StripAll(run, p);
        CollapseRunsKeeps(rest, p, rep);
        assert r[1..] == CollapseRuns(rest, p, rep);
      } else {
        CollapseRunsKeeps(s[1..], p, rep);
        assert r[1..] == CollapseRuns(s[1..], p, rep);
      }
    }
  }

  /** Collapsing introduces no character but `rep`. */
  lemma {:induction false} CollapseRunsChars(s: string, p: char -> bool, rep: char)
    requires p(rep)
    ensures forall c :: c in CollapseRuns(s, p, rep) ==> c in s || c == rep
    decreases |s|
  {
    if |s| > 0 {
      var rest := if p(s[0]) then DropWhile(s, p) else s[1..];
      CollapseRunsChars(rest, p, rep);
      assert forall c :: c in rest ==> c in s;
      assert CollapseRuns(s, p, rep) == [CollapseRuns(s, p, rep)[0]] + CollapseRuns(rest, p, rep);
    }
  }

  /** Ordinal comparison `a <= b`, character by character, a proper prefix first. */
  predicate LexLe(a: string, b: string)
    decreases |a|
  {
    |a| == 0 || (|b| > 0 && (a[0] < b[0] || (a[0] == b[0] && LexLe(a[1..], b[1..]))))
  }

  lemma {:induction false} LexLeTotal(a: string, b: string)
    ensures LexLe(a, b) || LexLe(b, a)
    decreases |a|
  {
    if |a| > 0 && |b| > 0 && a[0] == b[0] {
      LexLeTotal(a[1..], b[1..]);
    }
  }

  lemma {:induction false} LexLeTransitive(a: string, b: string, c: string)
    requires LexLe(a, b) && LexLe(b, c)
    ensures LexLe(a, c)
    decreases |a|
  {
    if |a| > 0 && a[0] == b[0] && b[0] == c[0] {
      LexLeTransitive(a[1..], b[1..], c[1..]);
    }
  }
  lemma NewlineFreeParts(parts: seq<string>)
    requires forall k :: 0 <= k < |parts| ==> '\n' !in parts[k]
    ensures forall k :: 0 <= k < |parts| - 1 ==> "\n"[0] !in parts[k]
    ensures |parts| > 0 ==> !Contains(parts[|parts| - 1], "\n")
  {
    if |parts| > 0 {
      var last := parts[|parts| - 1];
      ContainsIff(last, "\n");
      forall j
        ensures !OccursAt(last, "\n", j)
      {
        if 0 <= j < |last| {
          assert last[j..j + 1][0] == last[j] != '\n';
        }
      }
    }
  }

  /** Lines without newlines come back from splitting their newline-joined text. */
  lemma SplitJoinedLines(lines: seq<string>)
    requires |lines| >= 1 && forall k :: 0 <= k < |lines| ==> '\n' !in lines[k]
    ensures Split(Join(lines, "\n"), "\n") == lines
  {
    NewlineFreeParts(lines);
    SplitOfJoin(lines, "\n");
  }

  lemma NewlineFreeConcat(a: string, b: string)
    requires '\n' !in a && '\n' !in b
    ensures '\n' !in a + b
  {
  }

  lemma LowerAppend(a: string, b: string)
    ensures LowerAscii(a + b) == LowerAscii(a) + LowerAscii(b)
  {
    PointwiseAppend(a, b, LowerAscii(a), LowerAscii(b), LowerAscii(a + b), LowerChar);
  }

  /** Lower-casing maps no character into or out of the white space. */
  lemma LowerKeepsSpace(s: string)
    ensures forall i :: 0 <= i < |s| ==> IsSpace(LowerAscii(s)[i]) == IsSpace(s[i])
  {
  }

  // ---- Fields and words ----

  /** The first field of `t`: its longest prefix without a `sep` character, and the rest. */
  function TakeField(t: string, sep: char -> bool): (r: (string, string))
    ensures t == r.0 + r.1
    ensures forall i :: 0 <= i < |r.0| ==> !sep(r.0[i])
    ensures |r.1| > 0 ==> sep(r.1[0])
    decreases |t|
  {
    if |t| == 0 || sep(t[0]) then ("", t)
    else
      var r := TakeField(t[1..], sep);
      assert t == [t[0]] + (r.0 + r.1);
      ([t[0]] + r.0, r.1)
  }

  /** The fields of `s`: its maximal runs of characters `sep` rejects, in order. */
  function Fields(s: string, sep: char -> bool): seq<string>
    decreases |s|
  {
    var t := DropWhile(s, sep);
    if |t| == 0 then []
    else
      var r := TakeField(t, sep);
      [r.0] + Fields(r.1, sep)
  }

  /** The words of `s`: its maximal runs of characters other than white space. */
  function Words(s: string): seq<string> {
    Fields(s, IsSpace)
  }

  /** `p` characters in front change nothing about what `DropWhile` leaves. */
  lemma {:induction false} DropWhileAfter(a: string, x: string, p: char -> bool)
    requires All(a, p)
    ensures DropWhile(a + x, p) == DropWhile(x, p)
    decreases |a|
  {
    if |a| == 0 {
      assert a + x == x;
    } else {
      assert (a + x)[1..] == a[1..] + x;
      assert p(a[0]);
      DropWhileAfter(a[1..], x, p);
    }
  }

  /** What follows the first character `p` rejects is kept as it is. */
  lemma {:induction false} DropWhileBefore(x: string, b: string, p: char -> bool)
    requires |DropWhile(x, p)| > 0
    ensures DropWhile(x + b, p) == DropWhile(x, p) + b
    decreases |x|
  {
    if p(x[0]) {
      assert (x + b)[1..] == x[1..] + b;
      DropWhileBefore(x[1..], b, p);
    }
  }

  lemma DropWhileAll(s: string, p: char -> bool)
    requires All(s, p)
    ensures DropWhile(s, p) == ""
  {
    DropWhileAfter(s, "", p);
    assert s + "" == s;
  }

  /** A field ends where a separator or the end of the text comes. */
  lemma {:induction false} TakeFieldAppend(t: string, b: string, sep: char -> bool)
    requires |TakeField(t, sep).1| > 0 || |b| == 0 || sep(b[0])
    ensures TakeField(t + b, sep) == (TakeField(t, sep).0, TakeField(t, sep).1 + b)
    decreases |t|
  {
    if |t| == 0 {
      assert t + b == b;
    } else if !sep(t[0]) {
      assert (t + b)[1..] == t[1..] + b;
      TakeFieldAppend(t[1..], b, sep);
    }
  }

  /** Separators in front of a text do not change its fields. */
  lemma FieldsAfterSep(a: string, x: string, sep: char -> bool)
    requires All(a, sep)
    ensures Fields(a + x, sep) == Fields(x, sep)
  {
    DropWhileAfter(a, x, sep);
  }

  /** Separators after a text do not change its fields. */
  lemma {:induction false} FieldsBeforeSep(x: string, b: string, sep: char -> bool)
    requires All(b, sep)
    ensures Fields(x + b, sep) == Fields(x, sep)
    decreases |x|
  {
    var t := DropWhile(x, sep);
    if |t| == 0 {
      assert x[..|x|] == x;
      AllAppend(x, b, sep);
      DropWhileAll(x + b, sep);
    } else {
      DropWhileBefore(x, b, sep);
      var r := TakeField(t, sep);
      TakeFieldAppend(t, b, sep);
      FieldsBeforeSep(r.1, b, sep);
    }
  }

  /** Trimming does not change the words. */
  lemma WordsOfTrim(s: string)
    ensures Words(Trim(s)) == Words(s)
  {
    var pre, post := TrimSplit(s);
    FieldsAfterSep(pre, Trim(s) + post, IsSpace);
    FieldsBeforeSep(Trim(s), post, IsSpace);
  }

  /** Characters outside the class pass through collapsing unchanged. */
  lemma {:induction false} CollapseAfterField(w: string, rest: string, sep: char -> bool, rep: char)
    requires sep(rep)
    requires forall i :: 0 <= i < |w| ==> !sep(w[i])
    ensures CollapseRuns(w + rest, sep, rep) == w + CollapseRuns(rest, sep, rep)
    decreases |w|
  {
    if |w| > 0 {
      var tail := w[1..] + rest;
      assert w + rest == [w[0]] + tail;
      CollapseCons(w[0], tail, sep, rep);
      CollapseAfterField(w[1..], rest, sep, rep);
      assert w == [w[0]] + w[1..];
    } else {
      assert w + rest == rest;
    }
  }

  lemma CollapseCons(c: char, rest: string, sep: char -> bool, rep: char)
    requires sep(rep) && !sep(c)
    ensures CollapseRuns([c] + rest, sep, rep) == [c] + CollapseRuns(rest, sep, rep)
  {
    assert ([c] + rest)[1..] == rest;
  }

  /** Collapsing the separator runs of a text with no separator at either end joins its
      fields with single separators. */
  lemma {:induction false} CollapseJoinsFields(s: string, sep: char -> bool, rep: char)
    requires sep(rep)
    requires |s| > 0 ==> !sep(s[0]) && !sep(s[|s| - 1])
    ensures CollapseRuns(s, sep, rep) == Join(Fields(s, sep), [rep])
    decreases |s|
  {
    if |s| > 0 {
      if |TakeField(s, sep).1| > 0 {
        var t := SepTail(s, sep);
        CollapseJoinsFields(t, sep, rep);
      }
      CollapseJoinsFieldsStep(s, sep, rep);
    }
  }

  /** What follows the first field once the separators after it are dropped: it starts and
      ends outside the class. */
  lemma SepTail(s: string, sep: char -> bool) returns (t: string)
    requires |s| > 0 && !sep(s[|s| - 1]) && |TakeField(s, sep).1| > 0
    ensures t == DropWhile(TakeField(s, sep).1, sep)
    ensures |t| > 0 && |t| < |s| && !sep(t[0]) && !sep(t[|t| - 1])
  {
    var r := TakeField(s, sep);
    var rest := r.1;
    assert rest[|rest| - 1] == s[|s| - 1];
    t := DropWhile(rest, sep);
    DropWhileKeepsLast(rest, sep);
    assert t[|t| - 1] == rest[|rest| - 1];
  }

  /** One step of `CollapseJoinsFields`: the first field, then the collapsed rest. */
  lemma CollapseJoinsFieldsStep(s: string, sep: char -> bool, rep: char)
    requires sep(rep) && |s| > 0 && !sep(s[0])
    requires |TakeField(s, sep).1| > 0 ==>
      var t := DropWhile(TakeField(s, sep).1, sep);
      |t| > 0 && CollapseRuns(t, sep, rep) == Join(Fields(t, sep), [rep])
    ensures CollapseRuns(s, sep, rep) == Join(Fields(s, sep), [rep])
  {
    var r := TakeField(s, sep);
    var w, rest := r.0, r.1;
    FieldsCons(s, sep);
    CollapseAfterField(w, rest, sep, rep);
    if |rest| > 0 {
      var t := DropWhile(rest, sep);
      var ft := Fields(t, sep);
      CollapseAtSep(rest, sep, rep);
      FieldsDropLeading(rest, sep);
      assert Fields(s, sep) == [w] + ft;
      assert CollapseRuns(rest, sep, rep) == [rep] + Join(ft, [rep]);
      FieldsCons(t, sep);
      JoinCons(w, ft, [rep]);
    } else {
      assert Fields(rest, sep) == [];
      assert s == w;
    }
  }

  /** A text starting outside the class: its first field, then the fields of the rest. */
  lemma FieldsCons(s: string, sep: char -> bool)
    requires |s| > 0 && !sep(s[0])
    ensures Fields(s, sep) == [TakeField(s, sep).0] + Fields(TakeField(s, sep).1, sep)
  {
    assert DropWhile(s, sep) == s;
  }

  /** Leading separators do not change the fields. */
  lemma FieldsDropLeading(s: string, sep: char -> bool)
    ensures Fields(DropWhile(s, sep), sep) == Fields(s, sep)
  {
    var t := DropWhile(s, sep);
    assert DropWhile(t, sep) == t;
  }

  /** A run of separators at the front collapses to one `rep`. */
  lemma CollapseAtSep(s: string, sep: char -> bool, rep: char)
    requires sep(rep) && |s| > 0 && sep(s[0])
    ensures CollapseRuns(s, sep, rep) == [rep] + CollapseRuns(DropWhile(s, sep), sep, rep)
  {
  }

  lemma JoinCons(w: string, ws: seq<string>, sep: string)
    requires |ws| > 0
    ensures Join([w] + ws, sep) == w + (sep + Join(ws, sep))
  {
    assert ([w] + ws)[1..] == ws;
    assert w + sep + Join(ws, sep) == w + (sep + Join(ws, sep));
  }

  /** Stripping a class the separator stays clear of works part by part. */
  lemma {:induction false} StripJoin(parts: seq<string>, sep: string, p: char -> bool, f: string -> string)
    requires forall i :: 0 <= i < |sep| ==> !p(sep[i])
    requires forall w :: f(w) == Strip(w, p)
    ensures Strip(Join(parts, sep), p) == Join(Map(parts, f), sep)
    decreases |parts|
  {
    if |parts| >= 2 {
      StripNone(sep, p);
      StripJoin(parts[1..], sep, p, f);
      StripAppend(parts[0] + sep, Join(parts[1..], sep), p);
      StripAppend(parts[0], sep, p);
      assert Map(parts, f)[1..] == Map(parts[1..], f);
    }
  }
}
