/**
 * The handful of ECMAScript string operations the modelled code relies on:
 * `trim`, `split` on single characters, `join`, `replace` of a character
 * class by "", `padStart`, and the decimal rendering of integers that
 * template literals and `toString` produce.
 */
module JsStrings {
  import opened Wrappers

  /** ECMAScript WhiteSpace and LineTerminator code points: what `trim` strips and what `\s` matches. */
  const JsSpaces: set<char> := {
    '\t', '\n', '\U{000B}', '\U{000C}', '\r', ' ', '\U{00A0}', '\U{1680}',
    '\U{2000}', '\U{2001}', '\U{2002}', '\U{2003}', '\U{2004}', '\U{2005}',
    '\U{2006}', '\U{2007}', '\U{2008}', '\U{2009}', '\U{200A}',
    '\U{2028}', '\U{2029}', '\U{202F}', '\U{205F}', '\U{3000}', '\U{FEFF}'
  }

  /** ECMAScript LineTerminator code points: what `.` in a regular expression does not match. */
  predicate IsLineTerminator(c: char) {
    c == '\n' || c == '\r' || c == '\U{2028}' || c == '\U{2029}'
  }

  /** `s` holds no line terminator. */
  predicate SingleLine(s: string) {
    forall k :: 0 <= k < |s| ==> !IsLineTerminator(s[k])
  }

  /** Membership in `JsSpaces`, written as comparisons. */
  predicate IsJsSpace(c: char) {
    if c <= ' ' then c == ' ' || '\t' <= c <= '\r'
    else if c < '\U{00A0}' then false
    else c == '\U{00A0}' || c == '\U{1680}' || '\U{2000}' <= c <= '\U{200A}' || c == '\U{2028}' || c == '\U{2029}'
         || c == '\U{202F}' || c == '\U{205F}' || c == '\U{3000}' || c == '\U{FEFF}'
  }

  lemma JsSpacesMembers(c: char)
    ensures IsJsSpace(c) <==> c in JsSpaces
  {
  }

  /** No character of `s` is in `cs`. */
  predicate NoneOf(s: string, cs: set<char>) {
    forall k :: 0 <= k < |s| ==> s[k] !in cs
  }

  /** `s` neither starts nor ends with white space. */
  predicate IsTrimmed(s: string) {
    s == [] || (!IsJsSpace(s[0]) && !IsJsSpace(s[|s| - 1]))
  }

  /** The number of white-space characters `s` starts with, counting from index `i`. */
  function SpacesFrom(s: string, i: nat): (r: nat)
    requires i <= |s|
    ensures i <= r <= |s|
    ensures forall k :: i <= k < r ==> IsJsSpace(s[k])
    ensures r < |s| ==> !IsJsSpace(s[r])
    decreases |s| - i
  {
    if i < |s| && IsJsSpace(s[i]) then SpacesFrom(s, i + 1) else i
  }

  /** The index just past the last non-space character of `s[..j]` (at least `lo`). */
  function SpacesBefore(s: string, lo: nat, j: nat): (r: nat)
    requires lo <= j <= |s|
    ensures lo <= r <= j
    ensures forall k :: r <= k < j ==> IsJsSpace(s[k])
    ensures r > lo ==> !IsJsSpace(s[r - 1])
    decreases j
  {
    if j > lo && IsJsSpace(s[j - 1]) then SpacesBefore(s, lo, j - 1) else j
  }

  /** `String.prototype.trimStart`. */
  function TrimStart(s: string): (r: string)
    ensures r == [] || !IsJsSpace(r[0])
  {
    s[SpacesFrom(s, 0)..]
  }

  /** `String.prototype.trim`: `s` without its leading and trailing white space. */
  function Trim(s: string): (r: string)
    ensures IsTrimmed(r)
    ensures IsTrimmed(s) ==> r == s
  {
    var i := SpacesFrom(s, 0);
    s[i..SpacesBefore(s, i, |s|)]
  }

  /** `s.split(c)` for every separator character `c` in `seps`: the pieces between separators, empty ones included. */
  function Split(s: string, seps: set<char>): (r: seq<string>)
    ensures |r| >= 1
    ensures forall i :: 0 <= i < |r| ==> NoneOf(r[i], seps)
    decreases |s|
  {
    if s == [] then [""]
    else
      var rest := Split(s[1..], seps);
      if s[0] in seps then [""] + rest
      else [[s[0]] + rest[0]] + rest[1..]
  }

  /** `parts.join(sep)`. */
  function Join(parts: seq<string>, sep: string): (r: string) {
    if parts == [] then ""
    else if |parts| == 1 then parts[0]
    else parts[0] + sep + Join(parts[1..], sep)
  }

  lemma {:induction false} SplitNoSeparator(s: string, seps: set<char>)
    requires NoneOf(s, seps)
    ensures Split(s, seps) == [s]
    decreases |s|
  {
    if s != [] {
      SplitNoSeparator(s[1..], seps);
      assert [s[0]] + s[1..] == s;
    }
  }

  /** Splitting after a separator-free prefix and one separator. */
  lemma {:induction false} SplitAfterPrefix(p: string, c: char, rest: string, seps: set<char>)
    requires c in seps && NoneOf(p, seps)
    ensures Split(p + [c] + rest, seps) == [p] + Split(rest, seps)
    decreases |p|
  {
    var s := p + [c] + rest;
    if p == [] {
      assert s[1..] == rest;
    } else {
      assert s[1..] == p[1..] + [c] + rest;
      SplitAfterPrefix(p[1..], c, rest, seps);
      assert [p[0]] + p[1..] == p;
    }
  }

  /**
   * Splitting at the characters of `seps` undoes joining with one of them,
   * `c`, when no part contains any of them.
   */
  lemma {:induction false} SplitJoin(parts: seq<string>, c: char, seps: set<char>)
    requires |parts| >= 1 && c in seps
    requires forall i :: 0 <= i < |parts| ==> NoneOf(parts[i], seps)
    ensures Split(Join(parts, [c]), seps) == parts
  {
    if |parts| == 1 {
      SplitNoSeparator(parts[0], seps);
    } else {
      SplitJoin(parts[1..], c, seps);
      SplitAfterPrefix(parts[0], c, Join(parts[1..], [c]), seps);
      assert [parts[0]] + parts[1..] == parts;
    }
  }

  /** Joining the pieces of a split with the separator gives the string back. */
  lemma {:induction false} JoinSplit(s: string, c: char)
    ensures Join(Split(s, {c}), [c]) == s
    decreases |s|
  {
    if s != [] {
      JoinSplit(s[1..], c);
      var rest := Split(s[1..], {c});
      if s[0] != c {
        var r := Split(s, {c});
        assert r[1..] == rest[1..];
        if |rest| > 1 {
          assert rest == [rest[0]] + rest[1..];
          assert Join(rest, [c]) == rest[0] + [c] + Join(rest[1..], [c]);
        }
      }
    }
  }

  /** The index of the first `c` in `s` at or after `i`, or `|s|` when there is none. */
  function NextIndex(s: string, c: char, i: nat): (r: nat)
    requires i <= |s|
    ensures i <= r <= |s|
    ensures forall k :: i <= k < r ==> s[k] != c
    ensures r < |s| ==> s[r] == c
    decreases |s| - i
  {
    if i < |s| && s[i] != c then NextIndex(s, c, i + 1) else i
  }

  /** The next `c` from `i` is at `r` when `s[r]` is `c` and none comes between. */
  lemma NextIndexAt(s: string, c: char, i: nat, r: nat)
    requires i <= r < |s| && s[r] == c
    requires forall k :: i <= k < r ==> s[k] != c
    ensures NextIndex(s, c, i) == r
  {
  }

  /**
   * The first piece of `s.split(c)` runs up to the first `c`; after it come
   * the pieces of the text past that `c`, or nothing when there is no `c`.
   */
  lemma SplitHead(s: string, c: char)
    ensures Split(s, {c})[0] == s[..NextIndex(s, c, 0)]
    ensures NextIndex(s, c, 0) == |s| ==> Split(s, {c}) == [s]
    ensures NextIndex(s, c, 0) < |s| ==> Split(s, {c})[1..] == Split(s[NextIndex(s, c, 0) + 1..], {c})
  {
    var i := NextIndex(s, c, 0);
    if i == |s| {
      SplitNoSeparator(s, {c});
      assert s[..i] == s;
    } else {
      assert s == s[..i] + [c] + s[i + 1..];
      SplitAfterPrefix(s[..i], c, s[i + 1..], {c});
    }
  }

  /** The first piece of `s.slice(d).split(c)` runs from `d` up to the next `c`. */
  lemma {:induction false} SplitFirstFrom(s: string, c: char, d: nat)
    requires d <= |s|
    ensures Split(s[d..], {c})[0] == s[d..NextIndex(s, c, d)]
    decreases |s| - d
  {
    if d < |s| && s[d] != c {
      SplitFirstFrom(s, c, d + 1);
      var k := NextIndex(s, c, d);
      assert s[d..][1..] == s[d + 1..];
      assert [s[d]] + s[d + 1..k] == s[d..k];
    }
  }

  /** `s.replace(/[...]/g, "")`: `s` with every character of `cs` removed. */
  function RemoveChars(s: string, cs: set<char>): (r: string)
    ensures NoneOf(r, cs)
    ensures NoneOf(s, cs) ==> r == s
  {
    if s == [] then ""
    else if s[0] in cs then RemoveChars(s[1..], cs)
    else [s[0]] + RemoveChars(s[1..], cs)
  }

  /** Removing characters distributes over concatenation. */
  lemma {:induction false} RemoveCharsConcat(a: string, b: string, cs: set<char>)
    ensures RemoveChars(a + b, cs) == RemoveChars(a, cs) + RemoveChars(b, cs)
    decreases |a|
  {
    if a != [] {
      RemoveCharsConcat(a[1..], b, cs);
      assert (a + b)[1..] == a[1..] + b;
    } else {
      assert a + b == b;
    }
  }

  /** Trimming a non-empty trimmed string with white space around it gives the string back. */
  lemma TrimAround(a: string, s: string, b: string)
    requires s != [] && IsTrimmed(s)
    requires forall k :: 0 <= k < |a| ==> IsJsSpace(a[k])
    requires forall k :: 0 <= k < |b| ==> IsJsSpace(b[k])
    ensures Trim(a + s + b) == s
  {
    var w := a + s + b;
    var i := SpacesFrom(w, 0);
    assert w[|a|] == s[0];
    assert forall k :: 0 <= k < |a| ==> w[k] == a[k];
    assert i == |a|;
    var j := SpacesBefore(w, i, |w|);
    var e := |a| + |s|;
    assert w[e - 1] == s[|s| - 1];
    assert forall k :: e <= k < |w| ==> w[k] == b[k - e];
    assert j == e;
    assert w[i..j] == s;
  }
  /** Trimming a trimmed string changes nothing. */
  lemma TrimTrimmed(s: string)
    requires IsTrimmed(s)
    ensures Trim(s) == s
  {
    if s != [] {
      TrimAround("", s, "");
      assert "" + s + "" == s;
    }
  }

  /** One leading space before trimmed text is what `trim` removes. */
  lemma TrimLeadingSpace(s: string)
    requires s != [] && IsTrimmed(s)
    ensures Trim(" " + s) == s
  {
    TrimAround(" ", s, "");
    assert " " + s + "" == " " + s;
  }


  /** `s.padStart(n, [c])`: `s` after as many copies of `c` as bring it to length `n`. */
  function PadStart(s: string, n: nat, c: char): (r: string)
    ensures |r| == if |s| >= n then |s| else n
  {
    if |s| >= n then s else [c] + PadStart(s, n - 1, c)
  }

  /** A padded string is copies of the pad character followed by the string itself. */
  lemma {:induction false} PadStartParts(s: string, n: nat, c: char)
    ensures PadStart(s, n, c)[|PadStart(s, n, c)| - |s|..] == s
    ensures forall k :: 0 <= k < |PadStart(s, n, c)| - |s| ==> PadStart(s, n, c)[k] == c
  {
    var r := PadStart(s, n, c);
    if |s| < n {
      var rest := PadStart(s, n - 1, c);
      PadStartParts(s, n - 1, c);
      assert r == [c] + rest;
      assert r[|r| - |s|..] == rest[|rest| - |s|..];
    } else {
      assert r[|r| - |s|..] == r == s;
    }
  }

  predicate IsDigit(c: char) {
    '0' <= c <= '9'
  }

  predicate AllDigits(s: string) {
    forall k :: 0 <= k < |s| ==> IsDigit(s[k])
  }

  /** A string of digits holds no minus sign. */
  lemma DigitsUnsigned(s: string)
    requires AllDigits(s)
    ensures NoneOf(s, {'-'})
  {
    forall k | 0 <= k < |s|
      ensures s[k] != '-'
    {
      assert IsDigit(s[k]);
    }
  }

  /** The parts on either side of one separator are what surrounded it. */
  lemma AroundSlices<T>(a: seq<T>, c: T, b: seq<T>)
    ensures (a + [c] + b)[..|a|] == a
    ensures (a + [c] + b)[|a| + 1..|a| + 1 + |b|] == b
  {
  }

  /** In `a + [c] + b` with no `c` in `a` or `b`, the one `c` is at `|a|` and none follows it. */
  lemma NextIndexAround(a: string, c: char, b: string)
    requires NoneOf(a, {c}) && NoneOf(b, {c})
    ensures NextIndex(a + [c] + b, c, 0) == |a|
    ensures NextIndex(a + [c] + b, c, |a| + 1) == |a| + 1 + |b|
  {
    var s := a + [c] + b;
    assert forall k :: 0 <= k < |a| ==> s[k] == a[k];
    NextIndexAt(s, c, 0, |a|);
    var r := NextIndex(s, c, |a| + 1);
    if r < |s| {
      assert false;
    }
  }

  function DigitChar(d: nat): (c: char)
    requires d < 10
    ensures IsDigit(c)
  {
    ('0' as int + d) as char
  }

  function DigitValue(c: char): (d: nat)
    requires IsDigit(c)
    ensures d < 10 && DigitChar(d) == c
  {
    c as int - '0' as int
  }

  /** The value of a string of decimal digits (0 for the empty string). */
  function DigitsValue(s: string): (r: nat)
    requires AllDigits(s)
  {
    if s == [] then 0 else DigitsValue(s[..|s| - 1]) * 10 + DigitValue(s[|s| - 1])
  }

  /** `n.toString()` for a non-negative integer: shortest decimal form, no sign, no leading zero. */
  function NatToString(n: nat): (r: string)
    ensures |r| >= 1 && AllDigits(r)
    ensures |r| > 1 ==> r[0] != '0'
  {
    if n < 10 then [DigitChar(n)] else NatToString(n / 10) + [DigitChar(n % 10)]
  }

  /** `String(i)` for an integer: a leading `-` for negative values. */
  function IntToString(i: int): (r: string)
    ensures |r| >= 1
    ensures i >= 0 ==> r == NatToString(i)
    ensures i < 0 ==> r == "-" + NatToString(-i)
  {
    if i < 0 then "-" + NatToString(-i) else NatToString(i)
  }

  /** A printed integer: digits after an optional `-`, ending in a digit. */
  lemma IntToStringChars(i: int)
    ensures forall k :: 0 <= k < |IntToString(i)| ==> IsDigit(IntToString(i)[k]) || IntToString(i)[k] == '-'
    ensures IsDigit(IntToString(i)[|IntToString(i)| - 1]) && IsTrimmed(IntToString(i))
    ensures i >= 0 ==> AllDigits(IntToString(i))
  {
    var s := IntToString(i);
    if i < 0 {
      assert s == "-" + NatToString(-i);
    }
  }

  /** Reading back the decimal rendering of `n` gives `n`. */
  lemma {:induction false} NatToStringValue(n: nat)
    ensures DigitsValue(NatToString(n)) == n
    decreases n
  {
    var r := NatToString(n);
    if n >= 10 {
      NatToStringValue(n / 10);
      assert r[..|r| - 1] == NatToString(n / 10);
    }
  }

  /** `pieces.map((t) => t.trim()).filter(Boolean)`: the trimmed pieces that are not empty, in order. */
  function TrimmedNonEmpty(pieces: seq<string>): (r: seq<string>)
    ensures |r| <= |pieces|
    ensures forall k :: 0 <= k < |r| ==> r[k] != [] && IsTrimmed(r[k])
  {
    if pieces == [] then []
    else
      var t := Trim(pieces[0]);
      (if t != [] then [t] else []) + TrimmedNonEmpty(pieces[1..])
  }

  /** Pieces that are already trimmed and not empty are kept as they are. */
  lemma {:induction false} TrimmedNonEmptyKeeps(pieces: seq<string>)
    requires forall k :: 0 <= k < |pieces| ==> pieces[k] != [] && IsTrimmed(pieces[k])
    ensures TrimmedNonEmpty(pieces) == pieces
    decreases |pieces|
  {
    if pieces != [] {
      TrimmedNonEmptyKeeps(pieces[1..]);
      assert [pieces[0]] + pieces[1..] == pieces;
    }
  }
}
