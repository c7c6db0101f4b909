/*
 * The string operations the tool takes from QString: whitespace
 * simplification, splitting on and joining with the ", " delimiter,
 * substring search, decimal numbers and the base name of a path.
 */
module Text {

  /** The separator between tokens typed into an input box (constants.cpp). */
  const Delimiter: string := ", "

  /** ASCII stand-in for QChar::isSpace. */
  predicate IsSpace(c: char) {
    c == ' ' || c == '\t' || c == '\n' || c == '\r' || c == '\U{000B}' || c == '\U{000C}'
  }

  predicate NoSpace(w: string) {
    forall k :: 0 <= k < |w| ==> !IsSpace(w[k])
  }

  predicate Blank(s: string) {
    forall k :: 0 <= k < |s| ==> IsSpace(s[k])
  }

  /** The normal form QString::simplified produces: no whitespace other than
      single spaces, none at either end, never two in a row. */
  predicate IsSimplified(r: string) {
    && (forall k :: 0 <= k < |r| ==> IsSpace(r[k]) ==> r[k] == ' ')
    && (r != [] ==> r[0] != ' ' && r[|r| - 1] != ' ')
    && (forall k :: 0 < k < |r| ==> r[k] == ' ' ==> r[k - 1] != ' ')
  }

  /** Length of the run of non-space characters at the start of s. */
  function WordLength(s: string): (n: nat)
    ensures n <= |s|
    ensures forall k :: 0 <= k < n ==> !IsSpace(s[k])
    ensures n < |s| ==> IsSpace(s[n])
  {
    if s == [] || IsSpace(s[0]) then 0 else 1 + WordLength(s[1..])
  }

  /** The maximal runs of non-space characters of s, in order. */
  function Words(s: string): (ws: seq<string>)
    ensures forall w :: w in ws ==> w != [] && NoSpace(w)
    decreases |s|
  {
    if s == [] then []
    else if IsSpace(s[0]) then Words(s[1..])
    else
      var n := WordLength(s);
      [s[..n]] + Words(s[n..])
  }

  /** QList<QString>::join: the parts with sep between consecutive ones. */
  function Join(parts: seq<string>, sep: string): string {
    if parts == [] then []
    else if |parts| == 1 then parts[0]
    else parts[0] + sep + Join(parts[1..], sep)
  }

  /** QString::simplified, with ASCII whitespace: trims both ends and
      collapses every internal run of whitespace to one space. */
  function Simplified(s: string): string {
    Join(Words(s), " ")
  }

  lemma {:induction false} JoinWordsIsSimplified(ws: seq<string>)
    requires forall w :: w in ws ==> w != [] && NoSpace(w)
    ensures IsSimplified(Join(ws, " "))
    ensures ws != [] ==> Join(ws, " ") != [] && Join(ws, " ")[0] == ws[0][0]
  {
    if |ws| == 1 {
      assert ws[0] in ws;
      assert Join(ws, " ") == ws[0];
    } else if |ws| > 1 {
      var w := ws[0];
      assert w in ws;
      assert forall v :: v in ws[1..] ==> v in ws;
      var rest := Join(ws[1..], " ");
      JoinWordsIsSimplified(ws[1..]);
      assert ws[1] in ws;
      var r := w + " " + rest;
      assert r == Join(ws, " ");
      assert forall k :: 0 <= k < |w| ==> r[k] == w[k];
      assert forall k :: |w| < k < |r| ==> r[k] == rest[k - |w| - 1];
      assert r[|w| + 1] == rest[0] == ws[1][0];
    }
  }

  /** The simplified text is in normal form. */
  lemma SimplifiedIsNormal(s: string)
    ensures IsSimplified(Simplified(s))
  {
    JoinWordsIsSimplified(Words(s));
  }

  lemma {:induction false} BlankHasNoWords(s: string)
    requires Blank(s)
    ensures Words(s) == []
    decreases |s|
  {
    if s != [] {
      BlankHasNoWords(s[1..]);
    }
  }

  /** Text made only of whitespace simplifies to the empty string. */
  lemma BlankSimplifiesToEmpty(s: string)
    requires Blank(s)
    ensures Simplified(s) == ""
  {
    BlankHasNoWords(s);
  }

  /** QString::split(Delimiter) keeping empty parts: scans s left to right,
      acc holding the characters of the current part so far. */
  function SplitFrom(s: string, acc: string): (parts: seq<string>)
    ensures |parts| >= 1
    ensures Join(parts, Delimiter) == acc + s
    decreases |s|
  {
    if s == [] then [acc]
    else if Delimiter <= s then
      var rest := SplitFrom(s[|Delimiter|..], []);
      assert s == Delimiter + s[|Delimiter|..];
      assert ([acc] + rest)[1..] == rest;
      [acc] + rest
    else
      assert acc + s == (acc + [s[0]]) + s[1..];
      SplitFrom(s[1..], acc + [s[0]])
  }

  /** The tokens of s separated by Delimiter; there is always at least one,
      and joining them back gives s again. */
  function Split(s: string): (parts: seq<string>)
    ensures |parts| >= 1
    ensures Join(parts, Delimiter) == s
  {
    SplitFrom(s, [])
  }

  /** The tokens of what is typed into an input box: the simplified text
      split on the delimiter. There is always at least one, possibly the
      empty token. */
  function Tokens(text: string): (ts: seq<string>)
    ensures |ts| >= 1
    ensures Join(ts, Delimiter) == Simplified(text)
  {
    Split(Simplified(text))
  }

  predicate HasDelimiter(s: string) {
    exists k :: 0 <= k < |s| - 1 && s[k] == ',' && s[k + 1] == ' '
  }

  lemma {:induction false} SplitFromNoDelimiter(s: string, acc: string)
    requires !HasDelimiter(s)
    ensures SplitFrom(s, acc) == [acc + s]
    decreases |s|
  {
    if s != [] {
      assert forall k :: 0 <= k < |s[1..]| ==> s[1..][k] == s[k + 1];
      SplitFromNoDelimiter(s[1..], acc + [s[0]]);
      assert (acc + [s[0]]) + s[1..] == acc + s;
    }
  }

  /** Text without the delimiter is a single token. */
  lemma SplitNoDelimiter(s: string)
    requires !HasDelimiter(s)
    ensures Split(s) == [s]
  {
    SplitFromNoDelimiter(s, []);
  }

  lemma {:induction false} SplitFromAppend(a: string, b: string, acc: string)
    ensures SplitFrom(a + Delimiter + b, acc) == SplitFrom(a, acc) + Split(b)
    decreases |a|
  {
    var s := a + Delimiter + b;
    if a == [] {
      assert s == Delimiter + b;
      assert Delimiter <= s;
      assert s[|Delimiter|..] == b;
    } else {
      if Delimiter <= a {
        assert Delimiter <= s;
        assert s[|Delimiter|..] == a[|Delimiter|..] + Delimiter + b;
        SplitFromAppend(a[|Delimiter|..], b, []);
      } else {
        assert s[0] == a[0];
        assert |a| == 1 ==> s[1] == ',';
        assert |a| > 1 ==> s[1] == a[1];
        assert s[1..] == a[1..] + Delimiter + b;
        SplitFromAppend(a[1..], b, acc + [a[0]]);
      }
    }
  }

  /** Appending Delimiter and more text appends that text's tokens. */
  lemma SplitAppend(a: string, b: string)
    ensures Split(a + Delimiter + b) == Split(a) + Split(b)
  {
    SplitFromAppend(a, b, []);
  }

  /** Splitting a join gives the parts back when no part holds the delimiter. */
  lemma {:induction false} SplitJoin(parts: seq<string>)
    requires |parts| >= 1
    requires forall p :: p in parts ==> !HasDelimiter(p)
    ensures Split(Join(parts, Delimiter)) == parts
  {
    assert parts[0] in parts;
    if |parts| == 1 {
      SplitNoDelimiter(parts[0]);
    } else {
      SplitNoDelimiter(parts[0]);
      SplitJoin(parts[1..]);
      SplitAppend(parts[0], Join(parts[1..], Delimiter));
      assert parts == [parts[0]] + parts[1..];
    }
  }

  lemma {:induction false} JoinSnoc(parts: seq<string>, sep: string, x: string)
    requires parts != []
    ensures Join(parts + [x], sep) == Join(parts, sep) + sep + x
  {
    if |parts| > 1 {
      assert (parts + [x])[1..] == parts[1..] + [x];
      JoinSnoc(parts[1..], sep, x);
    }
  }

  /** QString::contains(needle): needle occurs in hay (the empty needle always does). */
  predicate Contains(hay: string, needle: string)
    decreases |hay|
  {
    needle <= hay || (hay != [] && Contains(hay[1..], needle))
  }

  /** QString::endsWith. */
  predicate EndsWith(s: string, suffix: string) {
    |suffix| <= |s| && s[|s| - |suffix|..] == suffix
  }

  function Digit(d: nat): (c: char)
    requires d < 10
  {
    "0123456789"[d]
  }

  /** QString::number for a non-negative integer: its decimal digits. */
  function NumberText(n: nat): (r: string)
    ensures 1 <= |r|
    ensures n >= 10 ==> |r| >= 2
    ensures forall k :: 0 <= k < |r| ==> '0' <= r[k] <= '9'
  {
    if n < 10 then [Digit(n)] else NumberText(n / 10) + [Digit(n % 10)]
  }

  /** Different numbers have different decimal texts, so numbered folders
      never collide. */
  lemma {:induction false} NumberTextInjective(a: nat, b: nat)
    requires NumberText(a) == NumberText(b)
    ensures a == b
  {
    var ra, rb := NumberText(a), NumberText(b);
    if a >= 10 && b >= 10 {
      assert ra[..|ra| - 1] == NumberText(a / 10);
      assert rb[..|rb| - 1] == NumberText(b / 10);
      NumberTextInjective(a / 10, b / 10);
      assert Digit(a % 10) == ra[|ra| - 1] == Digit(b % 10);
    }
  }

  /** QFileInfo::fileName: what follows the last '/' of a path. */
  function BaseName(path: string): (name: string)
    ensures forall k :: 0 <= k < |name| ==> name[k] != '/'
    ensures |name| <= |path| && path[|path| - |name|..] == name
    ensures |name| == |path| || path[|path| - |name| - 1] == '/'
  {
    if path == [] || path[|path| - 1] == '/' then []
    else BaseName(path[..|path| - 1]) + [path[|path| - 1]]
  }

  /** QDir(dir).filePath(name) for a relative name. */
  function PathJoin(dir: string, name: string): (p: string)
    ensures EndsWith(p, "/" + name)
  {
    dir + "/" + name
  }
}
