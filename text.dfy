/** The two string operations the quiz relies on: lower-casing (for scoring)
    and `Array.prototype.join` (for the results page). */
module Text {

  predicate IsUpper(c: char) { 'A' <= c <= 'Z' }

  /** Lower-case one character; only the ASCII letters A-Z are affected. */
  function LowerChar(c: char): (r: char)
    ensures !IsUpper(r)
    ensures !IsUpper(c) ==> r == c
    ensures IsUpper(c) ==> 'a' <= r <= 'z' && r as int - c as int == 'a' as int - 'A' as int
  {
    if IsUpper(c) then (c as int + ('a' as int - 'A' as int)) as char else c
  }

  /** `String.prototype.toLowerCase`, restricted to ASCII. */
  function Lower(s: string): (r: string)
    ensures |r| == |s|
    ensures forall i :: 0 <= i < |r| ==> !IsUpper(r[i])
    ensures forall i :: 0 <= i < |s| ==> r[i] == LowerChar(s[i])
  {
    seq(|s|, i requires 0 <= i < |s| => LowerChar(s[i]))
  }

  /** Lower-casing twice is lower-casing once. */
  lemma LowerIdempotent(s: string)
    ensures Lower(Lower(s)) == Lower(s)
  {
  }

  /** `x` and `y` are the lower- and upper-case forms of one ASCII letter. */
  predicate CaseSwapped(x: char, y: char)
  {
    'a' <= x <= 'z' && y as int == x as int - ('a' as int - 'A' as int)
  }

  /** `a` and `b` spell the same word, letter case apart. */
  predicate CaseVariant(a: string, b: string)
  {
    |a| == |b| &&
    forall i :: 0 <= i < |a| ==> a[i] == b[i] || CaseSwapped(a[i], b[i]) || CaseSwapped(b[i], a[i])
  }

  /** Changing the case of any letters does not change the lower-cased word. */
  lemma CaseVariantSameLower(a: string, b: string)
    requires CaseVariant(a, b)
    ensures Lower(a) == Lower(b)
  {
  }

  /** Total number of characters in `xs`. */
  function TotalLength(xs: seq<string>): nat
  {
    if xs == [] then 0 else |xs[0]| + TotalLength(xs[1..])
  }

  /** `xs.join(sep)`: the elements with `sep` between neighbours. */
  function Join(xs: seq<string>, sep: string): (r: string)
    ensures |xs| == 1 ==> r == xs[0]
    ensures xs != [] ==> |r| == TotalLength(xs) + (|xs| - 1) * |sep|
  {
    if xs == [] then ""
    else if |xs| == 1 then xs[0]
    else xs[0] + sep + Join(xs[1..], sep)
  }

  /** Joining is left-to-right accumulation: each further element is added
      after one more separator. */
  lemma {:induction false} JoinSnoc(xs: seq<string>, x: string, sep: string)
    requires xs != []
    ensures Join(xs + [x], sep) == Join(xs, sep) + sep + x
  {
    if |xs| == 1 {
      assert xs + [x] == [xs[0], x];
      assert [xs[0], x][1..] == [x];
    } else {
      assert (xs + [x])[1..] == xs[1..] + [x];
      JoinSnoc(xs[1..], x, sep);
    }
  }

  /** With a non-empty separator, the join is empty exactly for `[]` and `[""]`. */
  lemma JoinEmpty(xs: seq<string>, sep: string)
    requires sep != ""
    ensures Join(xs, sep) == "" <==> xs == [] || xs == [""]
  {
  }
}
