/**
 Whitespace trimming as ECMAScript's `String.prototype.trim` performs it.
 Both chat front ends decide whether a draft is worth sending by trimming it,
 and the session front end also sends and stores the trimmed text.
 */
module Text {

  /** The WhiteSpace and LineTerminator code points of ECMAScript (tab, line
      feed, vertical tab, form feed, carriage return, space, no-break space,
      the Zs separators, line and paragraph separator, byte order mark). */
  predicate IsWhitespace(c: char) {
    var n := c as int;
    || n == 0x09 || n == 0x0A || n == 0x0B || n == 0x0C || n == 0x0D
    || n == 0x20 || n == 0xA0 || n == 0x1680
    || (0x2000 <= n && n <= 0x200A)
    || n == 0x2028 || n == 0x2029 || n == 0x202F || n == 0x205F
    || n == 0x3000 || n == 0xFEFF
  }

  /** Every character of `s` is whitespace (vacuously true of ""). */
  predicate AllWhitespace(s: string) {
    forall i :: 0 <= i < |s| ==> IsWhitespace(s[i])
  }

  /** `s` starts and ends with a non-whitespace character, or is empty. */
  predicate Trimmed(s: string) {
    s == [] || (!IsWhitespace(s[0]) && !IsWhitespace(s[|s| - 1]))
  }

  /** `s` is `core` with only whitespace before it (the first `k` characters)
      and only whitespace after it. */
  predicate PaddedAt(s: string, k: int, core: string) {
    && 0 <= k <= |s| - |core|
    && s[k..k + |core|] == core
    && AllWhitespace(s[..k])
    && AllWhitespace(s[k + |core|..])
  }

  /** The index of the first non-whitespace character of `s` at or after
      `i`, or `|s|` when there is none. */
  function SkipForward(s: string, i: int): (k: int)
    requires 0 <= i <= |s|
    ensures i <= k <= |s|
    ensures forall j :: i <= j < k ==> IsWhitespace(s[j])
    ensures k == |s| || !IsWhitespace(s[k])
    decreases |s| - i
  {
    if i < |s| && IsWhitespace(s[i]) then SkipForward(s, i + 1) else i
  }

  /** The index just past the last non-whitespace character of `s` before
      `i`, or 0 when there is none. */
  function SkipBackward(s: string, i: int): (k: int)
    requires 0 <= i <= |s|
    ensures 0 <= k <= i
    ensures forall j :: k <= j < i ==> IsWhitespace(s[j])
    ensures k == 0 || !IsWhitespace(s[k - 1])
    decreases i
  {
    if i > 0 && IsWhitespace(s[i - 1]) then SkipBackward(s, i - 1) else i
  }

  /** `s.trim()`: the infix of `s` that neither starts nor ends with
      whitespace and has only whitespace around it. */
  function Trim(s: string): (r: string)
    ensures Trimmed(r)
    ensures r == [] <==> AllWhitespace(s)
    ensures exists k :: PaddedAt(s, k, r)
  {
    var a := SkipForward(s, 0);
    if a == |s| then
      Framed(s, |s|, |s|);
      []
    else
      var b := SkipBackward(s, |s|);
      assert !IsWhitespace(s[a]);
      Framed(s, a, b);
      s[a..b]
  }

  /** Whitespace before `a` and from `b` on makes `s[a..b]` padded. */
  lemma Framed(s: string, a: int, b: int)
    requires 0 <= a <= b <= |s|
    requires forall j :: 0 <= j < a ==> IsWhitespace(s[j])
    requires forall j :: b <= j < |s| ==> IsWhitespace(s[j])
    ensures PaddedAt(s, a, s[a..b])
    ensures a == b ==> AllWhitespace(s)
  {
    assert AllWhitespace(s[..a]) by {
      forall j | 0 <= j < a ensures IsWhitespace(s[..a][j]) {
        assert s[..a][j] == s[j];
      }
    }
    assert AllWhitespace(s[b..]) by {
      forall j | 0 <= j < |s| - b ensures IsWhitespace(s[b..][j]) {
        assert s[b..][j] == s[b + j];
      }
    }
  }

  /** `SkipForward` is determined by its contract. */
  lemma SkipForwardIs(s: string, i: int, k: int)
    requires 0 <= i <= k <= |s|
    requires forall j :: i <= j < k ==> IsWhitespace(s[j])
    requires k == |s| || !IsWhitespace(s[k])
    ensures SkipForward(s, i) == k
  {
    var k' := SkipForward(s, i);
    if k' < |s| {
      assert !IsWhitespace(s[k']);
    }
    if k < |s| {
      assert !IsWhitespace(s[k]);
    }
  }

  /** `SkipBackward` is determined by its contract. */
  lemma SkipBackwardIs(s: string, i: int, k: int)
    requires 0 <= k <= i <= |s|
    requires forall j :: k <= j < i ==> IsWhitespace(s[j])
    requires k == 0 || !IsWhitespace(s[k - 1])
    ensures SkipBackward(s, i) == k
  {
    var k' := SkipBackward(s, i);
    if k' > 0 {
      assert !IsWhitespace(s[k' - 1]);
    }
    if k > 0 {
      assert !IsWhitespace(s[k - 1]);
    }
  }

  /** Trim is determined by its specification: whatever whitespace surrounds
      a trimmed core, trimming recovers exactly that core. */
  lemma TrimOfPadded(a: string, core: string, b: string)
    requires AllWhitespace(a) && AllWhitespace(b)
    requires Trimmed(core)
    ensures Trim(a + core + b) == core
  {
    var s := a + core + b;
    var hi := |a| + |core|;
    forall j | 0 <= j < |a| ensures IsWhitespace(s[j]) {
      assert s[j] == a[j];
    }
    forall j | hi <= j < |s| ensures IsWhitespace(s[j]) {
      assert s[j] == b[j - hi];
    }
    if core == [] {
      assert AllWhitespace(s);
    } else {
      assert s[|a|] == core[0] && s[hi - 1] == core[|core| - 1];
      SkipForwardIs(s, 0, |a|);
      SkipBackwardIs(s, |s|, hi);
      assert s[|a|..hi] == core;
    }
  }

  /** A string already trimmed is its own trim. */
  lemma TrimOfTrimmed(core: string)
    requires Trimmed(core)
    ensures Trim(core) == core
  {
    assert [] + core + [] == core;
    TrimOfPadded([], core, []);
  }
}
