/**
 * The Python `str` operations the scripts rely on, over strings of Unicode code
 * points: `sep.join`, `s.split(sep)`, `s.splitlines()`, `s.split()[0]`,
 * `s.upper()` and the `<` ordering used by `sorted`.
 */
module PyText {
  import opened Base
  import opened Sorting

  /** Index of the first character of `s` satisfying `p`, or `|s|` when there is none. */
  function FirstWhere(s: string, p: char -> bool): (i: nat)
    ensures i <= |s|
    ensures forall j :: 0 <= j < i ==> !p(s[j])
    ensures i < |s| ==> p(s[i])
    decreases |s|
  {
    if s == [] then 0
    else if p(s[0]) then 0
    else 1 + FirstWhere(s[1..], p)
  }

  /** Index of the first `c` in `s`, or `|s|` when there is none. */
  function IndexOf(s: string, c: char): (i: nat)
    ensures i <= |s|
    ensures forall j :: 0 <= j < i ==> s[j] != c
    ensures i < |s| ==> s[i] == c
    decreases |s|
  {
    if s == [] then 0
    else if s[0] == c then 0
    else 1 + IndexOf(s[1..], c)
  }

  lemma FirstWhereIs(s: string, p: char -> bool, i: nat)
    requires i < |s| && p(s[i])
    requires forall j :: 0 <= j < i ==> !p(s[j])
    ensures FirstWhere(s, p) == i
  {
  }

  // ---------------------------------------------------------------- join / split

  /** `sep.join(parts)` */
  function Join(parts: seq<string>, sep: string): string
    decreases |parts|
  {
    if |parts| == 0 then ""
    else if |parts| == 1 then parts[0]
    else parts[0] + sep + Join(parts[1..], sep)
  }

  /** `s.split(sep)` for a one-character separator: the pieces between separators, empty ones included. */
  function Split(s: string, sep: char): (parts: seq<string>)
    ensures |parts| >= 1
    ensures forall i :: 0 <= i < |parts| ==> sep !in parts[i]
    decreases |s|
  {
    var i := IndexOf(s, sep);
    if i == |s| then [s] else [s[..i]] + Split(s[i + 1..], sep)
  }

  lemma IndexOfIs(s: string, c: char, i: nat)
    requires i < |s| && s[i] == c
    requires forall j :: 0 <= j < i ==> s[j] != c
    ensures IndexOf(s, c) == i
  {
  }

  /** `s.split(sep)` yields one piece more than `s` has separators. */
  lemma {:induction false} SplitCount(s: string, sep: char)
    ensures |Split(s, sep)| == multiset(s)[sep] + 1
    decreases |s|
  {
    var i := IndexOf(s, sep);
    if i == |s| {
      assert sep !in s;
    } else {
      SplitCount(s[i + 1..], sep);
      assert s == s[..i] + [s[i]] + s[i + 1..];
      assert multiset(s) == multiset(s[..i]) + multiset{sep} + multiset(s[i + 1..]);
      assert sep !in s[..i];
      assert multiset(s[..i])[sep] == 0;
    }
  }

  /** Joining the pieces back with the separator gives the original string. */
  lemma {:induction false} JoinSplit(s: string, sep: char)
    ensures Join(Split(s, sep), [sep]) == s
    decreases |s|
  {
    var i := IndexOf(s, sep);
    if i < |s| {
      JoinSplit(s[i + 1..], sep);
      var rest := Split(s[i + 1..], sep);
      assert Split(s, sep) == [s[..i]] + rest;
      assert ([s[..i]] + rest)[1..] == rest;
      assert s == s[..i] + [sep] + s[i + 1..];
    }
  }

  /** Splitting a join of separator-free pieces recovers the pieces. */
  lemma {:induction false} SplitJoin(parts: seq<string>, sep: char)
    requires |parts| >= 1
    requires forall i :: 0 <= i < |parts| ==> sep !in parts[i]
    ensures Split(Join(parts, [sep]), sep) == parts
    decreases |parts|
  {
    var s := Join(parts, [sep]);
    if |parts| == 1 {
      assert sep !in s;
    } else {
      var head := parts[0];
      var tail := Join(parts[1..], [sep]);
      assert s == head + [sep] + tail;
      assert forall j :: 0 <= j < |head| ==> s[j] == head[j] && s[j] != sep;
      assert s[|head|] == sep;
      IndexOfIs(s, sep, |head|);
      assert s[..|head|] == head;
      assert s[|head| + 1..] == tail;
      SplitJoin(parts[1..], sep);
    }
  }

  // ---------------------------------------------------------------- lines

  /** The line boundaries of `str.splitlines`. */
  predicate IsLineBoundary(c: char) {
    var n := c as int;
    || 0x0A <= n <= 0x0D
    || 0x1C <= n <= 0x1E
    || n == 0x85 || n == 0x2028 || n == 0x2029
  }

  /** `line` holds no line boundary. */
  predicate IsWholeLine(line: string) {
    forall j :: 0 <= j < |line| ==> !IsLineBoundary(line[j])
  }

  /**
   * `s.splitlines()`: the text between line boundaries, where "\r\n" counts as one
   * boundary and a final boundary does not start an extra empty line.
   */
  function SplitLines(s: string): (lines: seq<string>)
    ensures |lines| == 0 <==> |s| == 0
    ensures forall k :: 0 <= k < |lines| ==> IsWholeLine(lines[k])
    decreases |s|
  {
    if s == [] then []
    else
      var i := FirstWhere(s, IsLineBoundary);
      if i == |s| then [s]
      else
        var next := if s[i] == '\r' && i + 1 < |s| && s[i + 1] == '\n' then i + 2 else i + 1;
        [s[..i]] + SplitLines(s[next..])
  }

  /** Lines, each followed by "\n": the layout of a line-oriented text file. */
  function Terminated(lines: seq<string>): string
    decreases |lines|
  {
    if lines == [] then "" else lines[0] + "\n" + Terminated(lines[1..])
  }

  /** `splitlines` recovers the lines of a "\n"-terminated text whose lines hold no boundary. */
  lemma {:induction false} SplitLinesTerminated(lines: seq<string>)
    requires forall k :: 0 <= k < |lines| ==> IsWholeLine(lines[k])
    ensures SplitLines(Terminated(lines)) == lines
    decreases |lines|
  {
    if lines != [] {
      assert Terminated(lines) == lines[0] + "\n" + Terminated(lines[1..]);
      SplitLinesCons(lines[0], Terminated(lines[1..]));
      SplitLinesTerminated(lines[1..]);
      assert lines == [lines[0]] + lines[1..];
    }
  }

  /** A boundary-free line followed by "\n" is split off as the first line. */
  lemma SplitLinesCons(head: string, rest: string)
    requires IsWholeLine(head)
    ensures SplitLines(head + "\n" + rest) == [head] + SplitLines(rest)
  {
    var s := head + "\n" + rest;
    forall j | 0 <= j < |head| ensures !IsLineBoundary(s[j]) {
      assert s[j] == head[j];
    }
    FirstWhereIs(s, IsLineBoundary, |head|);
    assert s[..|head|] == head;
    assert s[|head| + 1..] == rest;
  }

  // ---------------------------------------------------------------- words

  /** `c.isspace()`: the separators of the argument-less `str.split()`. */
  predicate IsSpace(c: char) {
    var n := c as int;
    || 0x09 <= n <= 0x0D
    || 0x1C <= n <= 0x20
    || n == 0x85 || n == 0xA0 || n == 0x1680
    || 0x2000 <= n <= 0x200A
    || n == 0x2028 || n == 0x2029 || n == 0x202F || n == 0x205F || n == 0x3000
  }

  /** `w` occurs in `line` at `k`, after only whitespace and followed by whitespace or the end. */
  ghost predicate WordAt(line: string, w: string, k: nat) {
    && k + |w| <= |line|
    && (forall j :: 0 <= j < k ==> IsSpace(line[j]))
    && line[k..k + |w|] == w
    && (k + |w| == |line| || IsSpace(line[k + |w|]))
  }

  /** `w` is the first whitespace-separated word of `line`. */
  ghost predicate IsFirstWord(line: string, w: string) {
    && w != []
    && (forall j :: 0 <= j < |w| ==> !IsSpace(w[j]))
    && exists k :: WordAt(line, w, k)
  }

  /** `line.split()[0]`; `None` where `line.split()` is empty and the subscript raises. */
  function FirstWord(line: string): (w: Option<string>)
    ensures w.None? <==> forall j :: 0 <= j < |line| ==> IsSpace(line[j])
  {
    var k := FirstWhere(line, c => !IsSpace(c));
    if k == |line| then None
    else
      var n := FirstWhere(line[k..], IsSpace);
      Some(line[k..k + n])
  }

  /** What `FirstWord` finds is the first whitespace-separated word of the line. */
  lemma FirstWordIsFirst(line: string)
    requires FirstWord(line).Some?
    ensures IsFirstWord(line, FirstWord(line).value)
  {
    var k := FirstWhere(line, c => !IsSpace(c));
    var n := FirstWhere(line[k..], IsSpace);
    assert n > 0;
    assert WordAt(line, line[k..k + n], k);
  }

  // ---------------------------------------------------------------- case

  function UpperChar(c: char): char {
    if 'a' <= c <= 'z' then (c as int - 32) as char else c
  }

  /** `s.upper()`, for ASCII letters. */
  function Upper(s: string): string {
    seq(|s|, i requires 0 <= i < |s| => UpperChar(s[i]))
  }

  // ---------------------------------------------------------------- ordering

  /** `a < b` on Python strings: lexicographic by code point, a proper prefix first. */
  predicate StrLess(a: string, b: string)
    decreases |a|
  {
    if a == [] then b != []
    else b != [] && (a[0] < b[0] || (a[0] == b[0] && StrLess(a[1..], b[1..])))
  }

  /** `p < q` on Python pairs of strings: by the first component, then by the second. */
  predicate PairLess(p: (string, string), q: (string, string)) {
    StrLess(p.0, q.0) || (p.0 == q.0 && StrLess(p.1, q.1))
  }

  lemma {:induction false} StrLessIrreflexive(a: string)
    ensures !StrLess(a, a)
    decreases |a|
  {
    if a != [] {
      StrLessIrreflexive(a[1..]);
    }
  }

  lemma {:induction false} StrLessTransitive(a: string, b: string, c: string)
    requires StrLess(a, b) && StrLess(b, c)
    ensures StrLess(a, c)
    decreases |a|
  {
    if a != [] && a[0] == b[0] && b[0] == c[0] {
      StrLessTransitive(a[1..], b[1..], c[1..]);
    }
  }

  lemma {:induction false} StrLessTotal(a: string, b: string)
    requires a != b
    ensures StrLess(a, b) || StrLess(b, a)
    decreases |a|
  {
    if a != [] && b != [] && a[0] == b[0] {
      assert a == [a[0]] + a[1..] && b == [b[0]] + b[1..];
      StrLessTotal(a[1..], b[1..]);
    }
  }

  /** Python's string `<` is a strict total order, so `sorted` over strings is well defined. */
  lemma StrLessOrders(s: set<string>)
    ensures StrictTotalOrderOn(s, StrLess)
  {
    forall x | x in s ensures !StrLess(x, x) {
      StrLessIrreflexive(x);
    }
    forall x, y, z | x in s && y in s && z in s && StrLess(x, y) && StrLess(y, z)
      ensures StrLess(x, z)
    {
      StrLessTransitive(x, y, z);
    }
    forall x, y | x in s && y in s && x != y ensures StrLess(x, y) || StrLess(y, x) {
      StrLessTotal(x, y);
    }
  }

  /** Python's `<` on pairs of strings is a strict total order as well. */
  lemma PairLessOrders(s: set<(string, string)>)
    ensures StrictTotalOrderOn(s, PairLess)
  {
    forall p | p in s ensures !PairLess(p, p) {
      StrLessIrreflexive(p.0);
      StrLessIrreflexive(p.1);
    }
    forall p, q, r | p in s && q in s && r in s && PairLess(p, q) && PairLess(q, r)
      ensures PairLess(p, r)
    {
      if StrLess(p.0, q.0) && StrLess(q.0, r.0) {
        StrLessTransitive(p.0, q.0, r.0);
      } else if p.0 == q.0 && q.0 == r.0 {
        StrLessTransitive(p.1, q.1, r.1);
      }
    }
    forall p, q | p in s && q in s && p != q ensures PairLess(p, q) || PairLess(q, p) {
      if p.0 != q.0 {
        StrLessTotal(p.0, q.0);
      } else {
        StrLessTotal(p.1, q.1);
      }
    }
  }
}
