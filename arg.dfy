/*
 * QString::arg(const QString &a) as Qt 5 implements it: it looks for place
 * markers ('%', an optional 'L', then one or two digits), takes the lowest
 * number among them and replaces every marker with that number by a. Text
 * substituted by one call is scanned again by the next call.
 */
module Placeholders {
  import opened Options

  predicate IsDigit(c: char) {
    '0' <= c <= '9'
  }

  function DigitValue(c: char): nat
    requires IsDigit(c)
  {
    c as int - '0' as int
  }

  /** The place marker at the start of s, if there is one: its number and
      its length. */
  function MarkerAt(s: string): (r: Option<(nat, nat)>)
    ensures r.Some? ==> 2 <= r.value.1 <= |s| && r.value.0 < 100 && s[0] == '%'
  {
    if |s| < 2 || s[0] != '%' then None
    else
      var j := if s[1] == 'L' then 2 else 1;
      if j >= |s| || !IsDigit(s[j]) then None
      else if j + 1 < |s| && IsDigit(s[j + 1]) then
        Some((10 * DigitValue(s[j]) + DigitValue(s[j + 1]), j + 2))
      else Some((DigitValue(s[j]), j + 1))
  }

  function MinOpt(a: Option<nat>, b: Option<nat>): Option<nat> {
    if a.None? then b
    else if b.None? then a
    else if a.value <= b.value then a
    else b
  }

  /** The lowest marker number in s, scanning left to right as Qt does. */
  function LowestMarker(s: string): Option<nat>
    decreases |s|
  {
    if s == [] then None
    else
      match MarkerAt(s)
      case Some((n, len)) => MinOpt(Some(n), LowestMarker(s[len..]))
      case None => LowestMarker(s[1..])
  }

  /** s with every marker numbered n replaced by a. */
  function ReplaceMarker(s: string, n: nat, a: string): string
    decreases |s|
  {
    if s == [] then []
    else
      match MarkerAt(s)
      case Some((m, len)) => (if m == n then a else s[..len]) + ReplaceMarker(s[len..], n, a)
      case None => [s[0]] + ReplaceMarker(s[1..], n, a)
  }

  /** QString::arg: the markers with the lowest number replaced by a; s
      unchanged when it holds no marker, in particular when it holds no '%'. */
  function Arg(s: string, a: string): (r: string)
    ensures LowestMarker(s).None? ==> r == s
    ensures NoPercent(s) ==> r == s
  {
    assert NoPercent(s) ==> LowestMarker(s).None? by {
      if NoPercent(s) {
        NoMarkers(s);
      }
    }
    match LowestMarker(s)
    case None => s
    case Some(n) => ReplaceMarker(s, n, a)
  }

  predicate NoPercent(x: string) {
    forall k :: 0 <= k < |x| ==> x[k] != '%'
  }

  /** Text without '%' holds no marker, so the scan passes over it. */
  lemma {:induction false} LowestSkip(x: string, rest: string)
    requires NoPercent(x)
    ensures LowestMarker(x + rest) == LowestMarker(rest)
  {
    if x != [] {
      assert (x + rest)[0] == x[0] != '%';
      assert MarkerAt(x + rest) == None;
      assert (x + rest)[1..] == x[1..] + rest;
      LowestSkip(x[1..], rest);
    } else {
      assert x + rest == rest;
    }
  }

  lemma {:induction false} ReplaceSkip(x: string, rest: string, n: nat, a: string)
    requires NoPercent(x)
    ensures ReplaceMarker(x + rest, n, a) == x + ReplaceMarker(rest, n, a)
  {
    if x != [] {
      assert (x + rest)[0] == x[0] != '%';
      assert MarkerAt(x + rest) == None;
      assert (x + rest)[1..] == x[1..] + rest;
      ReplaceSkip(x[1..], rest, n, a);
      assert [x[0]] + (x[1..] + ReplaceMarker(rest, n, a)) == x + ReplaceMarker(rest, n, a);
    } else {
      assert x + rest == rest;
    }
  }

  /** A one-digit marker followed by a character that is not a digit. */
  lemma SingleMarker(d: char, rest: string)
    requires IsDigit(d) && rest != [] && !IsDigit(rest[0])
    ensures MarkerAt(['%', d] + rest) == Some((DigitValue(d), 2))
    ensures (['%', d] + rest)[2..] == rest
  {
  }

  /** Text without '%' and a marker-free tail: the scan finds nothing. */
  lemma NoMarkers(post: string)
    requires NoPercent(post)
    ensures LowestMarker(post) == None
    ensures forall n, a :: ReplaceMarker(post, n, a) == post
  {
    LowestSkip(post, []);
    assert post + [] == post;
    forall n: nat, a: string ensures ReplaceMarker(post, n, a) == post {
      ReplaceSkip(post, [], n, a);
    }
  }

  /** A two-marker pattern pre %1 mid %2 post, with the literal parts free
      of '%' and mid, post not starting with a digit, after its first
      substitution. */
  lemma FirstSubstitution(pre: string, mid: string, post: string, x: string)
    requires NoPercent(pre) && NoPercent(mid) && NoPercent(post)
    requires mid != [] && !IsDigit(mid[0]) && post != [] && !IsDigit(post[0])
    ensures Arg(pre + ("%1" + (mid + ("%2" + post))), x) == pre + (x + (mid + ("%2" + post)))
  {
    var t := mid + ("%2" + post);
    NoMarkers(post);
    SingleMarker('2', post);
    LowestSkip(mid, "%2" + post);
    assert t[0] == mid[0];
    SingleMarker('1', t);
    LowestSkip(pre, "%1" + t);
    ReplaceSkip(pre, "%1" + t, 1, x);
    ReplaceSkip(mid, "%2" + post, 1, x);
  }

  /** Substituting at the second marker of what is left. */
  lemma SecondSubstitution(head: string, post: string, y: string)
    requires NoPercent(head) && NoPercent(post) && post != [] && !IsDigit(post[0])
    ensures Arg(head + ("%2" + post), y) == head + (y + post)
  {
    NoMarkers(post);
    SingleMarker('2', post);
    LowestSkip(head, "%2" + post);
    ReplaceSkip(head, "%2" + post, 2, y);
  }

  /** Substituting at the second marker when the first substitution brought
      in another marker with the same number: both are replaced. */
  lemma SecondSubstitutionTwice(head: string, mid: string, post: string, y: string)
    requires NoPercent(head) && NoPercent(mid) && NoPercent(post)
    requires mid != [] && !IsDigit(mid[0]) && post != [] && !IsDigit(post[0])
    ensures Arg(head + ("%2" + (mid + ("%2" + post))), y) == head + (y + (mid + (y + post)))
  {
    var t := mid + ("%2" + post);
    NoMarkers(post);
    SingleMarker('2', post);
    LowestSkip(mid, "%2" + post);
    assert t[0] == mid[0];
    SingleMarker('2', t);
    LowestSkip(head, "%2" + t);
    ReplaceSkip(head, "%2" + t, 2, y);
    ReplaceSkip(mid, "%2" + post, 2, y);
  }

  lemma NoPercentJoin(a: string, b: string)
    requires NoPercent(a) && NoPercent(b)
    ensures NoPercent(a + b)
  {
    assert forall k :: 0 <= k < |a + b| ==> (a + b)[k] == if k < |a| then a[k] else b[k - |a|];
  }
}
