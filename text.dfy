/** The Python string operations the pipeline relies on: `str.lower`,
    `str.strip`, the regular-expression classes `\w` and `\s`, the
    substring test `a in b` and `sep.join(parts)`.

    Case mapping and `\w` are modelled on ASCII; whitespace is the set of
    code points Python's `str.isspace` accepts. */
module Text {

  /** Python's whitespace (`str.isspace`, `str.strip()`, regex `\s`). */
  predicate IsSpace(c: char)
  {
    var n := c as int;
    n == 32 || 9 <= n <= 13 || 28 <= n <= 31 || n == 0x85 || n == 0xA0 ||
    n == 0x1680 || 0x2000 <= n <= 0x200A || n == 0x2028 || n == 0x2029 ||
    n == 0x202F || n == 0x205F || n == 0x3000
  }

  predicate IsUpper(c: char)
  {
    'A' <= c <= 'Z'
  }

  /** Regex `\w`: letters, digits and the underscore. */
  predicate IsWordChar(c: char)
  {
    'a' <= c <= 'z' || 'A' <= c <= 'Z' || '0' <= c <= '9' || c == '_'
  }

  function Lower(c: char): (r: char)
    ensures !IsUpper(r)
    ensures IsSpace(r) <==> IsSpace(c)
    ensures IsWordChar(r) <==> IsWordChar(c)
    ensures !IsUpper(c) ==> r == c
  {
    if IsUpper(c) then (c as int + 32) as char else c
  }

  /** `s.lower()` */
  function LowerStr(s: string): (r: string)
    ensures |r| == |s|
    ensures forall i :: 0 <= i < |s| ==> r[i] == Lower(s[i])
  {
    seq(|s|, i requires 0 <= i < |s| => Lower(s[i]))
  }

  lemma LowerStrIdempotent(s: string)
    ensures LowerStr(LowerStr(s)) == LowerStr(s)
  {
  }

  function TrimLeft(s: string): (r: string)
    ensures |r| <= |s| && r == s[|s| - |r|..]
    decreases |s|
  {
    if s != [] && IsSpace(s[0]) then TrimLeft(s[1..]) else s
  }

  /** `TrimLeft` removes exactly the leading whitespace. */
  lemma {:induction false} TrimLeftSpec(s: string)
    ensures TrimLeft(s) == [] || !IsSpace(TrimLeft(s)[0])
    ensures forall i :: 0 <= i < |s| - |TrimLeft(s)| ==> IsSpace(s[i])
    decreases |s|
  {
    if s != [] && IsSpace(s[0]) {
      TrimLeftSpec(s[1..]);
    }
  }

  function TrimRight(s: string): (r: string)
    ensures |r| <= |s| && r == s[..|r|]
    decreases |s|
  {
    if s != [] && IsSpace(s[|s| - 1]) then TrimRight(s[..|s| - 1]) else s
  }

  /** `TrimRight` removes exactly the trailing whitespace. */
  lemma {:induction false} TrimRightSpec(s: string)
    ensures TrimRight(s) == [] || !IsSpace(TrimRight(s)[|TrimRight(s)| - 1])
    ensures forall i :: |TrimRight(s)| <= i < |s| ==> IsSpace(s[i])
    decreases |s|
  {
    if s != [] && IsSpace(s[|s| - 1]) {
      TrimRightSpec(s[..|s| - 1]);
    }
  }

  /** `s.strip()` */
  function Strip(s: string): string
  {
    TrimRight(TrimLeft(s))
  }

  /** `s.strip() == ""` */
  predicate IsBlank(s: string)
  {
    Strip(s) == ""
  }

  /** A string is blank exactly when every character is whitespace. */
  lemma {:induction false} BlankIffAllSpace(s: string)
    ensures IsBlank(s) <==> forall i :: 0 <= i < |s| ==> IsSpace(s[i])
  {
    var l := TrimLeft(s);
    TrimLeftSpec(s);
    TrimRightSpec(l);
    if forall i :: 0 <= i < |s| ==> IsSpace(s[i]) {
      assert l == [];
    }
  }

  lemma {:induction false} LowerTrimLeft(s: string)
    ensures LowerStr(TrimLeft(s)) == TrimLeft(LowerStr(s))
    decreases |s|
  {
    var ls := LowerStr(s);
    if s != [] && IsSpace(s[0]) {
      LowerTrimLeft(s[1..]);
      assert ls[1..] == LowerStr(s[1..]);
      assert IsSpace(ls[0]);
      assert TrimLeft(ls) == TrimLeft(ls[1..]);
    } else {
      assert TrimLeft(s) == s;
      assert ls == [] || !IsSpace(ls[0]);
      assert TrimLeft(ls) == ls;
    }
  }

  lemma {:induction false} LowerTrimRight(s: string)
    ensures LowerStr(TrimRight(s)) == TrimRight(LowerStr(s))
    decreases |s|
  {
    var ls := LowerStr(s);
    if s != [] && IsSpace(s[|s| - 1]) {
      LowerTrimRight(s[..|s| - 1]);
      assert ls[..|s| - 1] == LowerStr(s[..|s| - 1]);
      assert IsSpace(ls[|s| - 1]);
      assert TrimRight(ls) == TrimRight(ls[..|s| - 1]);
    } else {
      assert TrimRight(s) == s;
      assert ls == [] || !IsSpace(ls[|ls| - 1]);
      assert TrimRight(ls) == ls;
    }
  }

  /** Lower-casing and stripping commute. */
  lemma LowerStrip(s: string)
    ensures LowerStr(Strip(s)) == Strip(LowerStr(s))
  {
    LowerTrimLeft(s);
    LowerTrimRight(TrimLeft(s));
  }

  lemma {:induction false} TrimLeftIdempotent(s: string)
    requires s == [] || !IsSpace(s[0])
    ensures TrimLeft(s) == s
  {
  }

  lemma {:induction false} TrimRightIdempotent(s: string)
    requires s == [] || !IsSpace(s[|s| - 1])
    ensures TrimRight(s) == s
  {
  }

  /** Stripping an already stripped string changes nothing. */
  lemma StripIdempotent(s: string)
    ensures Strip(Strip(s)) == Strip(s)
  {
    var l := TrimLeft(s);
    var r := TrimRight(l);
    TrimLeftSpec(s);
    TrimRightSpec(l);
    if r != [] {
      assert r[0] == l[0];
    }
    TrimLeftIdempotent(r);
    TrimRightIdempotent(r);
  }

  /** Python's `needle in haystack` on strings. */
  predicate IsSubstring(needle: string, haystack: string)
  {
    exists i | 0 <= i <= |haystack| - |needle| :: OccursAt(needle, haystack, i)
  }

  /** `needle` starts at index `i` of `haystack`. */
  predicate OccursAt(needle: string, haystack: string, i: int)
  {
    0 <= i && i + |needle| <= |haystack| && haystack[i..i + |needle|] == needle
  }

  lemma SubstringAt(needle: string, haystack: string, i: int)
    requires OccursAt(needle, haystack, i)
    ensures IsSubstring(needle, haystack)
  {
  }

  lemma SubstringTrans(a: string, b: string, c: string)
    requires IsSubstring(a, b) && IsSubstring(b, c)
    ensures IsSubstring(a, c)
  {
    var i :| 0 <= i <= |b| - |a| && OccursAt(a, b, i);
    var j :| 0 <= j <= |c| - |b| && OccursAt(b, c, j);
    assert b == c[j..j + |b|] && a == b[i..i + |a|];
    forall k | 0 <= k < |a| ensures a[k] == c[j + i + k] {
      assert a[k] == b[i + k];
    }
    assert c[j + i..j + i + |a|] == a;
    SubstringAt(a, c, j + i);
  }

  /** `any(w in text for w in words)` */
  predicate MentionsAny(words: seq<string>, text: string)
  {
    exists w :: w in words && IsSubstring(w, text)
  }

  /** `sep.join(parts)` */
  function Join(parts: seq<string>, sep: string): string
    decreases |parts|
  {
    if parts == [] then ""
    else if |parts| == 1 then parts[0]
    else Join(parts[..|parts| - 1], sep) + sep + parts[|parts| - 1]
  }

  /** Every part occurs inside the joined text. */
  lemma {:induction false} JoinContainsPart(parts: seq<string>, sep: string, k: int)
    requires 0 <= k < |parts|
    ensures IsSubstring(parts[k], Join(parts, sep))
    decreases |parts|
  {
    var j := Join(parts, sep);
    if |parts| == 1 {
      SubstringAt(parts[k], j, 0);
    } else if k == |parts| - 1 {
      var pre := Join(parts[..|parts| - 1], sep) + sep;
      assert j == pre + parts[k];
      assert j[|pre|..|pre| + |parts[k]|] == parts[k];
      SubstringAt(parts[k], j, |pre|);
    } else {
      var init := Join(parts[..|parts| - 1], sep);
      JoinContainsPart(parts[..|parts| - 1], sep, k);
      assert j[..|init|] == init;
      SubstringAt(init, j, 0);
      SubstringTrans(parts[k], init, j);
    }
  }

  /** A word found in one part is found in the joined text. */
  lemma MentionInPartMentionsJoin(words: seq<string>, parts: seq<string>, sep: string, k: int)
    requires 0 <= k < |parts| && MentionsAny(words, parts[k])
    ensures MentionsAny(words, Join(parts, sep))
  {
    var w :| w in words && IsSubstring(w, parts[k]);
    JoinContainsPart(parts, sep, k);
    SubstringTrans(w, parts[k], Join(parts, sep));
  }
}
