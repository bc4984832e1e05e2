/** The two JavaScript string operations the autoformat classifier relies on:
    `String.prototype.endsWith` and `String.prototype.trim`.  A JavaScript
    string is modelled as a sequence of characters. */
module JsString {

  /** The characters `trim` removes: the WhiteSpace and LineTerminator
      code points of ECMAScript (section 12.2 and 12.3 of ECMA-262):
      TAB, LF, VT, FF, CR, SPACE, NBSP, the other space separators of
      category Zs, LINE SEPARATOR, PARAGRAPH SEPARATOR and the byte-order
      mark ZWNBSP. */
  predicate IsWhitespace(c: char) {
    var n := c as int;
    (0x09 <= n <= 0x0D) || n == 0x20 || n == 0xA0 || n == 0x1680
    || (0x2000 <= n <= 0x200A) || n == 0x2028 || n == 0x2029
    || n == 0x202F || n == 0x205F || n == 0x3000 || n == 0xFEFF
  }

  predicate AllWhitespace(s: string) {
    forall i :: 0 <= i < |s| ==> IsWhitespace(s[i])
  }

  /** Neither the first nor the last character is whitespace (vacuous for ""). */
  predicate NoEdgeWhitespace(s: string) {
    s == [] || (!IsWhitespace(s[0]) && !IsWhitespace(s[|s| - 1]))
  }

  /** `s.endsWith(suffix)`. */
  predicate EndsWith(s: string, suffix: string) {
    |suffix| <= |s| && s[|s| - |suffix|..] == suffix
  }

  /** `r` occurs in `s` at offset `i`, and everything before and after it is
      whitespace. */
  predicate PaddedAt(s: string, i: int, r: string) {
    0 <= i && i + |r| <= |s|
    && AllWhitespace(s[..i]) && s[i..i + |r|] == r && AllWhitespace(s[i + |r|..])
  }

  /** Strips leading whitespace. */
  function TrimStart(s: string): string
    decreases |s|
  {
    if s != [] && IsWhitespace(s[0]) then TrimStart(s[1..]) else s
  }

  /** Strips trailing whitespace. */
  function TrimEnd(s: string): string
    decreases |s|
  {
    if s != [] && IsWhitespace(s[|s| - 1]) then TrimEnd(s[..|s| - 1]) else s
  }

  /** `s.trim()`: `s` with leading and trailing whitespace removed (the
      TrimString operation of ECMA-262, applied to both ends). */
  function Trim(s: string): string {
    TrimStart(TrimEnd(s))
  }

  /** `TrimStart` keeps the longest suffix of `s` that does not start with
      whitespace, and drops only whitespace. */
  lemma {:induction false} TrimStartSpec(s: string)
    ensures var r := TrimStart(s);
      |r| <= |s| && r == s[|s| - |r|..] && AllWhitespace(s[..|s| - |r|])
      && (r == [] || !IsWhitespace(r[0]))
    decreases |s|
  {
    if s != [] && IsWhitespace(s[0]) {
      TrimStartSpec(s[1..]);
      var r := TrimStart(s[1..]);
      assert s[..|s| - |r|] == [s[0]] + s[1..][..|s| - 1 - |r|];
    }
  }

  /** `TrimEnd` keeps the longest prefix of `s` that does not end with
      whitespace, and drops only whitespace. */
  lemma {:induction false} TrimEndSpec(s: string)
    ensures var r := TrimEnd(s);
      |r| <= |s| && r == s[..|r|] && AllWhitespace(s[|r|..])
      && (r == [] || !IsWhitespace(r[|r| - 1]))
    decreases |s|
  {
    if s != [] && IsWhitespace(s[|s| - 1]) {
      TrimEndSpec(s[..|s| - 1]);
      var r := TrimEnd(s[..|s| - 1]);
      assert s[|r|..] == s[..|s| - 1][|r|..] + [s[|s| - 1]];
    }
  }

  /** What `trim` returns is a piece of `s` with no whitespace at either end,
      and everything around it in `s` is whitespace. */
  lemma TrimSpec(s: string)
    ensures NoEdgeWhitespace(Trim(s))
    ensures exists i :: PaddedAt(s, i, Trim(s))
  {
    TrimEndSpec(s);
    var e := TrimEnd(s);
    TrimStartSpec(e);
    var r := TrimStart(e);
    assert s[..|e| - |r|] == e[..|e| - |r|];
    assert s[|e| - |r|..|e|] == r;
    assert PaddedAt(s, |e| - |r|, r);
  }

  /** The trimmed string never ends in whitespace. */
  lemma TrimNeverEndsInWhitespace(s: string, suffix: string)
    requires suffix != [] && IsWhitespace(suffix[|suffix| - 1])
    ensures !EndsWith(Trim(s), suffix)
  {
    TrimSpec(s);
  }

  /** The prefix a `TrimEnd` keeps is pinned down by its last character:
      any cut point after which only whitespace follows and before which a
      non-whitespace character stands is the one `TrimEnd` chooses. */
  lemma {:induction false} TrimEndUnique(s: string, k: int)
    requires 0 <= k <= |s| && AllWhitespace(s[k..])
    requires k == 0 || !IsWhitespace(s[k - 1])
    ensures TrimEnd(s) == s[..k]
    decreases |s|
  {
    if k < |s| {
      var p := s[..|s| - 1];
      assert s[k..][|s| - 1 - k] == s[|s| - 1];
      assert IsWhitespace(s[k..][|s| - 1 - k]);
      assert p[k..] == s[k..|s| - 1];
      TrimEndUnique(p, k);
      assert p[..k] == s[..k];
    }
  }

  /** Same for `TrimStart`, from the other end. */
  lemma {:induction false} TrimStartUnique(s: string, k: int)
    requires 0 <= k <= |s| && AllWhitespace(s[..k])
    requires k == |s| || !IsWhitespace(s[k])
    ensures TrimStart(s) == s[k..]
    decreases k
  {
    if k > 0 {
      assert IsWhitespace(s[..k][0]);
      assert s[1..][..k - 1] == s[1..k];
      TrimStartUnique(s[1..], k - 1);
      assert s[1..][k - 1..] == s[k..];
    }
  }

  /** `trim` is the inverse of padding: surrounding a string that has no
      whitespace at its edges by whitespace on both sides and trimming gives
      that string back. */
  lemma {:induction false} TrimPadded(w1: string, m: string, w2: string)
    requires AllWhitespace(w1) && AllWhitespace(w2) && NoEdgeWhitespace(m)
    ensures Trim(w1 + m + w2) == m
  {
    var s := w1 + m + w2;
    if m == [] {
      assert s == w1 + w2;
      TrimEndUnique(s, 0);
      assert TrimEnd(s) == [];
    } else {
      var k := |w1| + |m|;
      assert s[k..] == w2;
      assert s[k - 1] == m[|m| - 1];
      TrimEndUnique(s, k);
      var e := s[..k];
      assert e == w1 + m;
      assert e[..|w1|] == w1;
      assert e[|w1|] == m[0];
      TrimStartUnique(e, |w1|);
      assert e[|w1|..] == m;
    }
  }

  /** `trim` is idempotent. */
  lemma TrimIdempotent(s: string)
    ensures Trim(Trim(s)) == Trim(s)
  {
    var r := Trim(s);
    TrimSpec(s);
    assert [] + r + [] == r;
    TrimPadded([], r, []);
  }
}
