/**
 * The string primitives the magics rely on, with Python's meaning:
 * `str.strip`, `str.split()` (no separator), `str.lower`, `in` on strings,
 * `str.replace` and `"\n".join`.
 */
module Text {

  /** Python's `str.isspace` for a single character. */
  predicate IsSpace(c: char) {
    c == ' ' || ('\t' <= c <= '\r') || ('\U{1C}' <= c <= '\U{1F}')
    || c == '\U{85}' || c == '\U{A0}' || c == '\U{1680}'
    || ('\U{2000}' <= c <= '\U{200A}') || c == '\U{2028}' || c == '\U{2029}'
    || c == '\U{202F}' || c == '\U{205F}' || c == '\U{3000}'
  }

  predicate AllSpace(s: string) {
    forall i :: 0 <= i < |s| ==> IsSpace(s[i])
  }

  predicate NoSpace(s: string) {
    forall i :: 0 <= i < |s| ==> !IsSpace(s[i])
  }

  /** A non-empty run of non-whitespace characters. */
  predicate IsWord(w: string) {
    w != [] && NoSpace(w)
  }

  /** Neither end of `s` is whitespace. */
  predicate Trimmed(s: string) {
    s == [] || (!IsSpace(s[0]) && !IsSpace(s[|s| - 1]))
  }

  /** The end of the whitespace run that starts at `i`. */
  function SkipSpaces(s: string, i: nat): (j: nat)
    requires i <= |s|
    ensures i <= j <= |s|
    ensures forall k :: i <= k < j ==> IsSpace(s[k])
    ensures j == |s| || !IsSpace(s[j])
    decreases |s| - i
  {
    if i < |s| && IsSpace(s[i]) then SkipSpaces(s, i + 1) else i
  }

  /** The end of the non-whitespace run that starts at `i`. */
  function SkipWord(s: string, i: nat): (j: nat)
    requires i <= |s|
    ensures i <= j <= |s|
    ensures forall k :: i <= k < j ==> !IsSpace(s[k])
    ensures j == |s| || IsSpace(s[j])
    decreases |s| - i
  {
    if i < |s| && !IsSpace(s[i]) then SkipWord(s, i + 1) else i
  }

  /** The start of the whitespace run that ends at `e`. */
  function BackSpaces(s: string, e: nat): (j: nat)
    requires e <= |s|
    ensures j <= e
    ensures forall k :: j <= k < e ==> IsSpace(s[k])
    ensures j == 0 || !IsSpace(s[j - 1])
  {
    if e > 0 && IsSpace(s[e - 1]) then BackSpaces(s, e - 1) else e
  }

  /** `SkipSpaces` stops at the first non-whitespace character, wherever that is. */
  lemma {:induction false} SkipSpacesAt(s: string, i: nat, j: nat)
    requires i <= j <= |s|
    requires forall k :: i <= k < j ==> IsSpace(s[k])
    requires j == |s| || !IsSpace(s[j])
    ensures SkipSpaces(s, i) == j
    decreases j - i
  {
    if i < j { SkipSpacesAt(s, i + 1, j); }
  }

  lemma {:induction false} SkipWordAt(s: string, i: nat, j: nat)
    requires i <= j <= |s|
    requires forall k :: i <= k < j ==> !IsSpace(s[k])
    requires j == |s| || IsSpace(s[j])
    ensures SkipWord(s, i) == j
    decreases j - i
  {
    if i < j { SkipWordAt(s, i + 1, j); }
  }

  lemma {:induction false} BackSpacesAt(s: string, j: nat, e: nat)
    requires j <= e <= |s|
    requires forall k :: j <= k < e ==> IsSpace(s[k])
    requires j == 0 || !IsSpace(s[j - 1])
    ensures BackSpaces(s, e) == j
    decreases e - j
  {
    if j < e { BackSpacesAt(s, j, e - 1); }
  }

  /** Python's `s.strip()`: `s` without its whitespace margins. */
  function Strip(s: string): (r: string)
    ensures Trimmed(r)
    ensures r == [] <==> AllSpace(s)
    ensures Trimmed(s) ==> r == s
  {
    var k := SkipSpaces(s, 0);
    var e := BackSpaces(s, |s|);
    assert Trimmed(s) && s != [] ==> k == 0 && e == |s| && s[k..e] == s by {
      if Trimmed(s) && s != [] {
        SkipSpacesAt(s, 0, 0);
        BackSpacesAt(s, |s|, |s|);
      }
    }
    if e <= k then [] else s[k..e]
  }

  /** Whitespace margins around a trimmed middle are exactly what `Strip` removes. */
  lemma StripMargins(pad: string, m: string, tail: string)
    requires AllSpace(pad) && AllSpace(tail) && m != [] && Trimmed(m)
    ensures Strip(pad + m + tail) == m
  {
    var s := pad + m + tail;
    SkipSpacesAt(s, 0, |pad|);
    BackSpacesAt(s, |pad| + |m|, |s|);
    assert s[|pad|..|pad| + |m|] == m;
  }

  lemma AllSpaceConcat(a: string, b: string)
    requires AllSpace(a) && AllSpace(b)
    ensures AllSpace(a + b)
  {
    forall i | 0 <= i < |a + b| ensures IsSpace((a + b)[i]) {
      if i >= |a| { assert (a + b)[i] == b[i - |a|]; }
    }
  }

  /** A text that is not all whitespace is its strip between two whitespace margins. */
  lemma StripShape(s: string) returns (k: nat, e: nat)
    requires !AllSpace(s)
    ensures k < e <= |s|
    ensures Strip(s) == s[k..e]
    ensures !IsSpace(s[k]) && !IsSpace(s[e - 1])
    ensures forall i :: 0 <= i < k ==> IsSpace(s[i])
    ensures forall i :: e <= i < |s| ==> IsSpace(s[i])
    ensures AllSpace(s[..k]) && AllSpace(s[e..])
  {
    k := SkipSpaces(s, 0);
    e := BackSpaces(s, |s|);
    assert forall i :: 0 <= i < k ==> s[..k][i] == s[i];
    assert forall i :: 0 <= i < |s| - e ==> s[e..][i] == s[e + i];
  }

  // Proof hint: regrouping a concatenation, kept apart so the callers stay cheap.
  lemma Regroup(pad: string, s: string, k: nat, e: nat)
    requires k <= e <= |s|
    ensures pad + s[..k] + s[k..e] + s[e..] == pad + s
  {
    assert s[..k] + s[k..e] + s[e..] == s;
  }

  /** Whitespace in front of a text does not change what `Strip` leaves of it. */
  lemma StripAfterSpace(pad: string, s: string)
    requires AllSpace(pad)
    ensures Strip(pad + s) == Strip(s)
  {
    if AllSpace(s) {
      AllSpaceConcat(pad, s);
    } else {
      var k, e := StripShape(s);
      var m := s[k..e];
      assert Trimmed(m) by { assert m == Strip(s); }
      AllSpaceConcat(pad, s[..k]);
      StripMargins(pad + s[..k], m, s[e..]);
      Regroup(pad, s, k, e);
    }
  }

  // Proof hint: regrouping a concatenation, kept apart so the callers stay cheap.
  lemma Regroup2(s: string, pad: string, k: nat, e: nat)
    requires k <= e <= |s|
    ensures s[..k] + s[k..e] + (s[e..] + pad) == s + pad
  {
    assert s[..k] + s[k..e] + s[e..] == s;
  }

  /** Whitespace after a text does not change what `Strip` leaves of it. */
  lemma StripBeforeSpace(s: string, pad: string)
    requires AllSpace(pad)
    ensures Strip(s + pad) == Strip(s)
  {
    if AllSpace(s) {
      AllSpaceConcat(s, pad);
    } else {
      var k, e := StripShape(s);
      var m := s[k..e];
      assert Trimmed(m) by { assert m == Strip(s); }
      AllSpaceConcat(s[e..], pad);
      StripMargins(s[..k], m, s[e..] + pad);
      Regroup2(s, pad, k, e);
    }
  }

  /** ASCII case folding of one character. */
  function LowerChar(c: char): char {
    if 'A' <= c <= 'Z' then (c as int - 'A' as int + 'a' as int) as char else c
  }

  /** `str.lower`, for the ASCII letters. */
  function Lower(s: string): (r: string)
    ensures |r| == |s|
    ensures forall i :: 0 <= i < |r| ==> !('A' <= r[i] <= 'Z')
    ensures forall i :: 0 <= i < |s| && 'A' <= s[i] <= 'Z' ==> r[i] as int == s[i] as int + 32
    ensures forall i :: 0 <= i < |s| && !('A' <= s[i] <= 'Z') ==> r[i] == s[i]
  {
    seq(|s|, i requires 0 <= i < |s| => LowerChar(s[i]))
  }

  /** The words of `s` from position `i` on. */
  function WordsFrom(s: string, i: nat): (ws: seq<string>)
    requires i <= |s|
    ensures forall w <- ws :: IsWord(w)
    ensures ws == [] <==> forall k :: i <= k < |s| ==> IsSpace(s[k])
    decreases |s| - i
  {
    var j := SkipSpaces(s, i);
    if j == |s| then []
    else
      var e := SkipWord(s, j);
      assert IsWord(s[j..e]);
      [s[j..e]] + WordsFrom(s, e)
  }

  /**
   * Python's `s.split()`: the maximal whitespace-free runs of `s`, in order.
   * Every word is non-empty and free of whitespace, and there are none
   * exactly when `s` is all whitespace.
   */
  function Words(s: string): (ws: seq<string>)
    ensures forall w <- ws :: IsWord(w)
    ensures ws == [] <==> AllSpace(s)
  {
    WordsFrom(s, 0)
  }

  /**
   * The converse of `Words`' contract: a word set off by whitespace (or by
   * the ends of the text) is the next word, and the split goes on after it.
   */
  lemma {:induction false} WordAt(s: string, i: nat, j: nat, e: nat)
    requires i <= j < e <= |s|
    requires forall k :: i <= k < j ==> IsSpace(s[k])
    requires forall k :: j <= k < e ==> !IsSpace(s[k])
    requires e == |s| || IsSpace(s[e])
    ensures WordsFrom(s, i) == [s[j..e]] + WordsFrom(s, e)
  {
    SkipSpacesAt(s, i, j);
    SkipWordAt(s, j, e);
  }

  /** `s` begins with `p`. */
  predicate StartsWith(s: string, p: string) {
    |p| <= |s| && s[..|p|] == p
  }

  /** Python's `p in s`. */
  predicate Contains(s: string, p: string)
    ensures StartsWith(s, p) ==> Contains(s, p)
    ensures Contains(s, p) ==> |p| <= |s|
    decreases |s|
  {
    StartsWith(s, p) || (s != [] && Contains(s[1..], p))
  }

  /**
   * Python's `s.replace(p, rep)` for a non-empty `p`: occurrences are found
   * left to right and do not overlap.
   */
  function ReplaceAll(s: string, p: string, rep: string): (r: string)
    requires p != []
    ensures !Contains(s, p) ==> r == s
    ensures rep == [] ==> |r| <= |s|
    ensures rep == [] && Contains(s, p) ==> |r| <= |s| - |p|
    decreases |s|
  {
    if StartsWith(s, p) then rep + ReplaceAll(s[|p|..], p, rep)
    else if s == [] then []
    else [s[0]] + ReplaceAll(s[1..], p, rep)
  }

  /** No proper suffix of `p` is also a prefix of it: two occurrences of `p` never overlap. */
  predicate NoBorder(p: string) {
    forall k :: 0 < k < |p| ==> p[k..] != p[..|p| - k]
  }

  /** Every text that has `p` somewhere in it contains `p`. */
  lemma {:induction false} ContainsInside(x: string, p: string, y: string)
    ensures Contains(x + p + y, p)
    decreases |x|
  {
    if x == [] {
      assert (x + p + y)[..|p|] == p;
    } else {
      assert (x + p + y)[1..] == x[1..] + p + y;
      ContainsInside(x[1..], p, y);
    }
  }

  /**
   * The converse of `ContainsInside`: a text that contains `p` is split by
   * the first occurrence of `p` into a text before it, free of `p`, and the rest.
   */
  lemma {:induction false} ContainsOccurs(s: string, p: string) returns (a: string, b: string)
    requires Contains(s, p)
    ensures s == a + p + b
    ensures p != [] ==> !Contains(a, p)
    decreases |s|
  {
    if StartsWith(s, p) {
      a, b := [], s[|p|..];
      assert s == s[..|p|] + s[|p|..];
    } else {
      var a', b' := ContainsOccurs(s[1..], p);
      a, b := [s[0]] + a', b';
      assert s == [s[0]] + s[1..];
      if p != [] {
        assert a[1..] == a';
      }
    }
  }

  /** An occurrence of `p` that starts inside a shorter text overlaps `p` itself. */
  lemma OverlapIsBorder(a: string, p: string, b: string)
    requires 0 < |a| < |p| && StartsWith(a + p + b, p)
    ensures p[|a|..] == p[..|p| - |a|]
  {
    var s := a + p + b;
    var k := |a|;
    assert s[k..|p|] == s[..|p|][k..];
    assert s[k..|p|] == (p + b)[..|p| - k] by { assert s[k..] == p + b; }
    assert (p + b)[..|p| - k] == p[..|p| - k];
  }

  /** Where the pattern does not begin, `replace` keeps the first character and goes on. */
  lemma ReplaceSkipsChar(s: string, p: string, rep: string)
    requires p != [] && s != [] && !StartsWith(s, p)
    ensures ReplaceAll(s, p, rep) == [s[0]] + ReplaceAll(s[1..], p, rep)
  {
  }

  /** A prefix of a text that begins with `c` is `c` followed by a prefix of the rest. */
  lemma StartsWithUncons(c: char, x: string, q: string)
    requires q != [] && StartsWith([c] + x, q)
    ensures c == q[0] && StartsWith(x, q[1..])
  {
    var t := [c] + x;
    assert t[0] == t[..|q|][0];
    assert x[..|q| - 1] == t[1..|q|] == t[..|q|][1..];
  }

  /** Text without the pattern, followed by a pattern that cannot overlap itself, has no match at its front. */
  lemma NoMatchBeforeFirst(a: string, p: string, b: string)
    requires p != [] && NoBorder(p) && a != [] && !Contains(a, p)
    ensures !StartsWith(a + p + b, p)
  {
    if StartsWith(a + p + b, p) && |a| < |p| {
      OverlapIsBorder(a, p, b);
    }
  }

  // Proof hint: splitting off the first character, kept apart so ReplaceAtFirst stays cheap.
  lemma Prepend(a: string, p: string, b: string, rep: string, tail: string)
    requires a != []
    ensures [a[0]] + (a[1..] + rep + tail) == a + rep + tail
    ensures a + p + b == [a[0]] + (a[1..] + p + b)
  {
    assert a == [a[0]] + a[1..];
  }

  /**
   * `replace` at the first occurrence of a pattern that cannot overlap
   * itself: the text before the occurrence is kept, the occurrence becomes
   * `rep`, and the replacement goes on after it.
   */
  lemma {:induction false} ReplaceAtFirst(a: string, p: string, b: string, rep: string)
    requires p != [] && NoBorder(p) && !Contains(a, p)
    ensures ReplaceAll(a + p + b, p, rep) == a + rep + ReplaceAll(b, p, rep)
    decreases |a|
  {
    if a == [] {
      var s := p + b;
      assert StartsWith(s, p) by { assert s[..|p|] == p; }
      assert s[|p|..] == b;
      assert a + p + b == s;
    } else {
      var s := a + p + b;
      NoMatchBeforeFirst(a, p, b);
      Prepend(a, p, b, rep, ReplaceAll(b, p, rep));
      assert s[1..] == a[1..] + p + b;
      ReplaceSkipsChar(s, p, rep);
      ReplaceAtFirst(a[1..], p, b, rep);
    }
  }

  /** Python's `"\n".join(lines)`. */
  /** Joining two non-empty runs of lines puts one newline between their joins. */
  lemma {:induction false} JoinLinesAppend(a: seq<string>, b: seq<string>)
    requires a != [] && b != []
    ensures JoinLines(a + b) == JoinLines(a) + "\n" + JoinLines(b)
    decreases |a|
  {
    if |a| == 1 {
      assert (a + b)[1..] == b;
    } else {
      assert (a + b)[1..] == a[1..] + b;
      JoinLinesAppend(a[1..], b);
    }
  }

  function JoinLines(lines: seq<string>): (r: string)
    ensures lines == [] ==> r == []
    ensures lines != [] ==> StartsWith(r, lines[0])
    ensures |lines| == 1 ==> r == lines[0]
    ensures |lines| > 1 ==> StartsWith(r, lines[0] + "\n")
  {
    if lines == [] then ""
    else if |lines| == 1 then lines[0]
    else lines[0] + "\n" + JoinLines(lines[1..])
  }
}
