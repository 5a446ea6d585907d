/** The pieces of the ECMAScript string library that the core relies on:
    `String.prototype.trim` and `Array.prototype.join` over strings. */
module JsString {

  /** ECMAScript WhiteSpace and LineTerminator code points, the set that
      `trim` removes: TAB, VT, FF, ZWNBSP, the Unicode space separators (Zs),
      LF, CR, LINE SEPARATOR and PARAGRAPH SEPARATOR. */
  predicate IsWhiteSpace(c: char) {
    || c == '\t' || c == '\U{B}' || c == '\U{C}' || c == '\U{FEFF}'
    || c == ' ' || c == '\U{A0}' || c == '\U{1680}'
    || ('\U{2000}' <= c <= '\U{200A}')
    || c == '\U{202F}' || c == '\U{205F}' || c == '\U{3000}'
    || c == '\n' || c == '\r' || c == '\U{2028}' || c == '\U{2029}'
  }

  /** True when `s` holds at least one character that `trim` keeps. */
  predicate HasNonWhiteSpace(s: string) {
    exists i :: 0 <= i < |s| && !IsWhiteSpace(s[i])
  }

  /** `s` with its leading white space removed: a suffix of `s` whose first
      character (if any) is not white space, all dropped characters being
      white space. */
  function TrimStart(s: string): (r: string)
    ensures |r| <= |s| && r == s[|s| - |r|..]
    ensures forall i :: 0 <= i < |s| - |r| ==> IsWhiteSpace(s[i])
    ensures r != [] ==> !IsWhiteSpace(r[0])
  {
    if s != [] && IsWhiteSpace(s[0]) then TrimStart(s[1..]) else s
  }

  /** `s` with its trailing white space removed: a prefix of `s` whose last
      character (if any) is not white space, all dropped characters being
      white space. */
  function TrimEnd(s: string): (r: string)
    ensures |r| <= |s| && r == s[..|r|]
    ensures forall i :: |r| <= i < |s| ==> IsWhiteSpace(s[i])
    ensures r != [] ==> !IsWhiteSpace(r[|r| - 1])
  {
    if s != [] && IsWhiteSpace(s[|s| - 1]) then TrimEnd(s[..|s| - 1]) else s
  }

  /** True when `sub` occurs in `s` starting at index `i`. */
  predicate OccursAt(s: string, sub: string, i: int) {
    0 <= i && i + |sub| <= |s| && s[i..i + |sub|] == sub
  }

  /** True when `sub` occurs in `s` as a contiguous run of characters. */
  ghost predicate Contains(s: string, sub: string) {
    exists i :: 0 <= i && OccursAt(s, sub, i)
  }

  /** `String.prototype.trim`: the piece of `s` left once its leading and
      trailing white space are removed. It occurs in `s` where `TrimStart`
      stops, everything before and after it is white space, and it neither
      begins nor ends with white space. */
  function Trim(s: string): (r: string)
    ensures var a := |s| - |TrimStart(s)|;
            && OccursAt(s, r, a)
            && (forall i :: 0 <= i < a ==> IsWhiteSpace(s[i]))
            && (forall i :: a + |r| <= i < |s| ==> IsWhiteSpace(s[i]))
            && (r != [] ==> !IsWhiteSpace(r[0]) && !IsWhiteSpace(r[|r| - 1]))
  {
    var t := TrimStart(s);
    var r := TrimEnd(t);
    TrimEndOfSuffix(s, t, r);
    r
  }

  /** Trimming the end of a suffix `t` of `s`, stated in terms of `s`: the
      kept prefix `r` of `t` occurs in `s` where `t` begins, only white space
      follows it in `s`, and it starts with the first character of `t`. */
  lemma TrimEndOfSuffix(s: string, t: string, r: string)
    requires |t| <= |s| && t == s[|s| - |t|..]
    requires |r| <= |t| && r == t[..|r|]
    requires forall j :: |r| <= j < |t| ==> IsWhiteSpace(t[j])
    ensures OccursAt(s, r, |s| - |t|)
    ensures forall i :: |s| - |t| + |r| <= i < |s| ==> IsWhiteSpace(s[i])
    ensures r != [] ==> r[0] == t[0]
  {
    var a := |s| - |t|;
    forall i | 0 <= i < |r| ensures s[a..a + |r|][i] == r[i] {
      assert s[a + i] == t[i];
    }
    forall i | a + |r| <= i < |s| ensures IsWhiteSpace(s[i]) {
      assert s[i] == t[i - a];
    }
  }

  /** `s.trim().length > 0` holds exactly when `s` has a character that is
      not white space. */
  lemma TrimNonEmptyIff(s: string)
    ensures |Trim(s)| > 0 <==> HasNonWhiteSpace(s)
  {
    var t := TrimStart(s);
    if |Trim(s)| > 0 {
      assert !IsWhiteSpace(t[0]);
      assert s[|s| - |t|] == t[0];
    }
  }

  /** `items.join(sep)`: the items in order, with `sep` between neighbours. */
  function Join(items: seq<string>, sep: string): (r: string)
    ensures items == [] ==> r == ""
  {
    if items == [] then ""
    else if |items| == 1 then items[0]
    else items[0] + sep + Join(items[1..], sep)
  }

  /** Where the `k`-th item starts inside `Join(items, sep)`. */
  function JoinOffset(items: seq<string>, sep: string, k: nat): nat
    requires k < |items|
  {
    if k == 0 then 0 else |items[0]| + |sep| + JoinOffset(items[1..], sep, k - 1)
  }

  /** Every item of a join appears in the joined string, at its offset. */
  lemma {:induction false} JoinHasItemAt(items: seq<string>, sep: string, k: nat)
    requires k < |items|
    ensures var r := Join(items, sep);
            var o := JoinOffset(items, sep, k);
            o + |items[k]| <= |r| && r[o..o + |items[k]|] == items[k]
  {
    var r := Join(items, sep);
    if k == 0 {
      if |items| > 1 {
        assert r == items[0] + (sep + Join(items[1..], sep));
      }
    } else {
      JoinHasItemAt(items[1..], sep, k - 1);
      var rest := Join(items[1..], sep);
      var o' := JoinOffset(items[1..], sep, k - 1);
      var p := |items[0]| + |sep|;
      assert r == (items[0] + sep) + rest;
      assert r[p + o'..p + o' + |items[k]|] == rest[o'..o' + |items[k]|];
    }
  }

  /** Every item of a join is contained in the joined string. */
  lemma JoinContainsEveryItem(items: seq<string>, sep: string)
    ensures forall k :: 0 <= k < |items| ==> Contains(Join(items, sep), items[k])
  {
    forall k | 0 <= k < |items|
      ensures Contains(Join(items, sep), items[k])
    {
      JoinHasItemAt(items, sep, k);
      var o := JoinOffset(items, sep, k);
      assert OccursAt(Join(items, sep), items[k], o);
    }
  }

  /** The middle piece of a concatenation is contained in it. */
  lemma ContainsConcatMiddle(a: string, b: string, c: string)
    ensures Contains(a + b + c, b)
  {
    var s := a + b + c;
    assert OccursAt(s, b, |a|);
  }
}
