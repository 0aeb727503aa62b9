/** Python string semantics the core relies on: `str.isspace`, `str.strip`,
    the lossy ASCII filter `s.encode('ASCII', errors='ignore').decode()`,
    substring tests, `str.replace`, and `int(s)` / `str(n)` for decimal
    numbers. */
module Text {
  import opened Wrappers

  // ---------------------------------------------------------------------------
  // Whitespace and strip

  /** The characters for which Python's `str.isspace()` holds (bidirectional
      classes WS, B and S, and the space separators). */
  const Whitespace: set<char> := {
    '\t', '\n', '\U{B}', '\U{C}', '\r', '\U{1C}', '\U{1D}', '\U{1E}', '\U{1F}', ' ',
    '\U{85}', '\U{A0}', '\U{1680}', '\U{2000}', '\U{2001}', '\U{2002}', '\U{2003}',
    '\U{2004}', '\U{2005}', '\U{2006}', '\U{2007}', '\U{2008}', '\U{2009}', '\U{200A}',
    '\U{2028}', '\U{2029}', '\U{202F}', '\U{205F}', '\U{3000}'
  }

  predicate IsSpace(c: char) {
    c in Whitespace
  }

  predicate AllSpace(s: string) {
    forall i :: 0 <= i < |s| ==> IsSpace(s[i])
  }

  /** Every character of `s` in positions `lo` up to `hi` is whitespace. */
  predicate SpaceBetween(s: string, lo: int, hi: int)
    requires 0 <= lo <= hi <= |s|
  {
    forall i :: lo <= i < hi ==> IsSpace(s[i])
  }

  /** The first index at or after `i` that does not hold whitespace (|s| if none). */
  function FirstNonSpace(s: string, i: nat): (k: nat)
    requires i <= |s|
    ensures i <= k <= |s| && SpaceBetween(s, i, k)
    ensures k < |s| ==> !IsSpace(s[k])
    decreases |s| - i
  {
    if i < |s| && IsSpace(s[i]) then FirstNonSpace(s, i + 1) else i
  }

  /** The end of the last non-whitespace character before `j`, no lower than `lo`. */
  function LastNonSpace(s: string, lo: nat, j: nat): (k: nat)
    requires lo <= j <= |s|
    ensures lo <= k <= j && SpaceBetween(s, k, j)
    ensures k > lo ==> !IsSpace(s[k - 1])
    decreases j
  {
    if j > lo && IsSpace(s[j - 1]) then LastNonSpace(s, lo, j - 1) else j
  }

  /** `r` is the piece of `s` at index `i`, and everything around it is whitespace. */
  predicate Surrounded(s: string, r: string, i: int) {
    0 <= i <= |s| - |r| && r == s[i..i + |r|]
    && SpaceBetween(s, 0, i) && SpaceBetween(s, i + |r|, |s|)
  }

  /** `r` neither starts nor ends with whitespace. */
  predicate Trimmed(r: string) {
    r == [] || (!IsSpace(r[0]) && !IsSpace(r[|r| - 1]))
  }

  /** `s.strip()`: `s` without its leading and trailing whitespace. */
  function Strip(s: string): (r: string)
    ensures exists i :: Surrounded(s, r, i)
    ensures Trimmed(r)
    ensures r == [] <==> AllSpace(s)
  {
    var lo := FirstNonSpace(s, 0);
    var hi := LastNonSpace(s, lo, |s|);
    assert Surrounded(s, s[lo..hi], lo);
    assert lo < |s| ==> lo < hi;
    s[lo..hi]
  }

  /** `strip` is characterised by its contract: the only trimmed piece of `s`
      with nothing but whitespace around it is `Strip(s)`. */
  lemma StripUnique(s: string, r: string, i: int)
    requires Surrounded(s, r, i) && Trimmed(r)
    ensures r == Strip(s)
  {
    var t := Strip(s);
    var k :| Surrounded(s, t, k);
    if r == [] {
      assert AllSpace(s) by {
        forall j | 0 <= j < |s| ensures IsSpace(s[j]) {
          if j >= i { assert SpaceBetween(s, i + |r|, |s|); }
        }
      }
    } else {
      assert s[i] == r[0];
    }
    if r != [] && t != [] {
      assert s[k] == t[0];
      assert s[i + |r| - 1] == r[|r| - 1] && s[k + |t| - 1] == t[|t| - 1];
      assert i == k;
      assert |r| == |t|;
    }
  }

  /** Stripping ignores whitespace appended at the end: accumulating
      `part + '\n\n'` and stripping is the same as joining and stripping. */
  lemma StripAppendSpaces(s: string, w: string)
    requires AllSpace(w)
    ensures Strip(s + w) == Strip(s)
  {
    var t := Strip(s);
    var k :| Surrounded(s, t, k);
    var u := s + w;
    assert u[k..k + |t|] == s[k..k + |t|];
    forall j | k + |t| <= j < |u| ensures IsSpace(u[j]) {
      if j < |s| { assert SpaceBetween(s, k + |t|, |s|); } else { assert u[j] == w[j - |s|]; }
    }
    forall j | 0 <= j < k ensures IsSpace(u[j]) {
      assert SpaceBetween(s, 0, k);
    }
    StripUnique(u, t, k);
  }

  /** A string that neither starts nor ends with whitespace is its own strip. */
  lemma StripFixed(s: string)
    requires Trimmed(s)
    ensures Strip(s) == s
  {
    assert Surrounded(s, s, 0);
    StripUnique(s, s, 0);
  }

  /** Every character `strip` removes is whitespace. */
  lemma StripKeeps(s: string)
    ensures forall i :: 0 <= i < |s| ==> IsSpace(s[i]) || s[i] in Strip(s)
  {
    var t := Strip(s);
    var k :| Surrounded(s, t, k);
    forall i | 0 <= i < |s| ensures IsSpace(s[i]) || s[i] in t {
      if i < k {
        assert SpaceBetween(s, 0, k);
      } else if i < k + |t| {
        assert t[i - k] == s[i];
      } else {
        assert SpaceBetween(s, k + |t|, |s|);
      }
    }
  }

  // ---------------------------------------------------------------------------
  // ASCII filter

  predicate IsAscii(c: char) {
    (c as int) < 128
  }

  predicate AllAscii(s: string) {
    forall i :: 0 <= i < |s| ==> IsAscii(s[i])
  }

  /** `s.encode('ASCII', errors='ignore').decode()`: every character at or
      above code point 128 is dropped, the rest kept in order. */
  function AsciiOnly(s: string): (r: string)
    ensures AllAscii(r) && |r| <= |s|
    ensures r == s <==> AllAscii(s)
  {
    if s == [] then []
    else
      var rest := AsciiOnly(s[1..]);
      if IsAscii(s[0]) then
        assert AllAscii(s) <==> AllAscii(s[1..]) by {
          if AllAscii(s[1..]) {
            forall i | 0 < i < |s| ensures IsAscii(s[i]) { assert s[i] == s[1..][i - 1]; }
          }
        }
        [s[0]] + rest
      else
        assert !AllAscii(s);
        rest
  }

  /** `a` can be obtained from `b` by deleting characters. */
  predicate IsSubsequence(a: string, b: string)
    decreases |b|
  {
    if a == [] then true
    else if b == [] then false
    else if a[0] == b[0] then IsSubsequence(a[1..], b[1..])
    else IsSubsequence(a, b[1..])
  }

  /** The ASCII filter only deletes: its result is a subsequence of its input. */
  lemma {:induction false} AsciiOnlyIsSubsequence(s: string)
    ensures IsSubsequence(AsciiOnly(s), s)
    decreases |s|
  {
    if s != [] {
      AsciiOnlyIsSubsequence(s[1..]);
      var r := AsciiOnly(s);
      if IsAscii(s[0]) {
        assert r[0] == s[0] && r[1..] == AsciiOnly(s[1..]);
      } else {
        assert r == AsciiOnly(s[1..]);
        assert r != [] ==> r[0] != s[0] by {
          if r != [] { assert IsAscii(r[0]); }
        }
      }
    }
  }

  /** Filtering is idempotent. */
  lemma AsciiOnlyIdempotent(s: string)
    ensures AsciiOnly(AsciiOnly(s)) == AsciiOnly(s)
  {
  }

  // ---------------------------------------------------------------------------
  // Substrings and replace

  /** `p` occurs in `s` starting at index `i`. */
  predicate OccursAt(s: string, p: string, i: int) {
    0 <= i <= |s| - |p| && s[i..i + |p|] == p
  }

  /** Python's `p in s` for strings. */
  predicate Occurs(s: string, p: string) {
    exists i | 0 <= i <= |s| - |p| :: OccursAt(s, p, i)
  }

  /** `s.replace(pat, rep)` for a non-empty `pat`: occurrences are found left to
      right, do not overlap, and the replacement text is not rescanned. */
  function Replace(s: string, pat: string, rep: string): string
    requires pat != []
    decreases |s|
  {
    if |s| < |pat| then s
    else if s[..|pat|] == pat then rep + Replace(s[|pat|..], pat, rep)
    else [s[0]] + Replace(s[1..], pat, rep)
  }

  /** Replacing a pattern that does not occur changes nothing. */
  lemma {:induction false} ReplaceAbsent(s: string, pat: string, rep: string)
    requires pat != [] && !Occurs(s, pat)
    ensures Replace(s, pat, rep) == s
    decreases |s|
  {
    if |s| >= |pat| {
      assert !OccursAt(s, pat, 0);
      OccursTail(s, pat);
      ReplaceAbsent(s[1..], pat, rep);
    }
  }

  /** A pattern absent from `s` is absent from its tail too. */
  lemma OccursTail(s: string, pat: string)
    requires s != [] && !Occurs(s, pat)
    ensures !Occurs(s[1..], pat)
  {
    var t := s[1..];
    forall i | 0 <= i <= |t| - |pat| ensures !OccursAt(t, pat, i) {
      assert !OccursAt(s, pat, i + 1);
      assert s[i + 1..i + 1 + |pat|] == t[i..i + |pat|];
    }
  }

  /** Replacing a pattern by itself is the identity. */
  lemma {:induction false} ReplaceSelf(s: string, pat: string)
    requires pat != []
    ensures Replace(s, pat, pat) == s
    decreases |s|
  {
    if |s| >= |pat| {
      if s[..|pat|] == pat {
        ReplaceSelf(s[|pat|..], pat);
        assert pat + s[|pat|..] == s;
      } else {
        ReplaceSelf(s[1..], pat);
        assert [s[0]] + s[1..] == s;
      }
    }
  }

  /** The leftmost occurrence is replaced and scanning resumes after it:
      when `pat` first occurs in `a + pat + b` right after `a`, the result is
      `a + rep` followed by the replacement of `b`. */
  lemma ReplaceLeftmost(a: string, b: string, pat: string, rep: string)
    requires pat != [] && !Occurs(a + pat[..|pat| - 1], pat)
    ensures Replace(a + pat + b, pat, rep) == a + rep + Replace(b, pat, rep)
  {
    var s := a + pat + b;
    var c := a + pat[..|pat| - 1];
    forall j | 0 <= j < |a| ensures !OccursAt(s, pat, j) {
      assert !OccursAt(c, pat, j);
      assert s[j..j + |pat|] == c[j..j + |pat|];
    }
    assert s[|a|..|a| + |pat|] == pat;
    ReplaceAt(s, pat, rep, |a|);
    assert s[..|a|] == a && s[|a| + |pat|..] == b;
  }

  /** `Replace` at the first occurrence of `pat`, found at index `k`: the text
      before it is kept, the occurrence is replaced and scanning resumes after
      it. */
  lemma ReplaceAt(s: string, pat: string, rep: string, k: nat)
    requires pat != [] && OccursAt(s, pat, k)
    requires forall j | 0 <= j < k :: !OccursAt(s, pat, j)
    ensures Replace(s, pat, rep) == s[..k] + rep + Replace(s[k + |pat|..], pat, rep)
  {
    var t := s[k + |pat|..];
    var r := Replace(t, pat, rep);
    ReplaceKeeps(s, pat, rep, k);
    assert Replace(s, pat, rep) == s[..k] + Replace(s[k..], pat, rep);
    SplitAt(s, k, |pat|);
    ReplaceHead(t, pat, rep);
    assert Replace(s[k..], pat, rep) == rep + r;
    Associate(s[..k], rep, r);
  }

  /** `Replace` keeps a prefix of the text in which `pat` starts nowhere. */
  lemma {:induction false} ReplaceKeeps(s: string, pat: string, rep: string, k: nat)
    requires pat != [] && k + |pat| <= |s|
    requires forall j | 0 <= j < k :: !OccursAt(s, pat, j)
    ensures Replace(s, pat, rep) == s[..k] + Replace(s[k..], pat, rep)
    decreases k
  {
    if k == 0 {
      assert s[..0] + s[0..] == s;
    } else {
      var t := s[1..];
      forall j | 0 <= j < k - 1 ensures !OccursAt(t, pat, j) {
        assert !OccursAt(s, pat, j + 1);
        assert t[j..j + |pat|] == s[j + 1..j + 1 + |pat|];
      }
      ReplaceKeeps(t, pat, rep, k - 1);
      assert t[k - 1..] == s[k..];
      var r := Replace(s[k..], pat, rep);
      ReplaceSkip(s, pat, rep);
      assert Replace(t, pat, rep) == t[..k - 1] + r;
      assert Replace(s, pat, rep) == [s[0]] + (t[..k - 1] + r);
      Regroup(s, k, t[..k - 1], r);
    }
  }

  /** `Replace` where the text does not start with the pattern keeps the first
      character and goes on with the rest. */
  lemma ReplaceSkip(s: string, pat: string, rep: string)
    requires pat != [] && |s| >= |pat| && !OccursAt(s, pat, 0)
    ensures Replace(s, pat, rep) == [s[0]] + Replace(s[1..], pat, rep)
  {
    assert s[0..|pat|] == s[..|pat|];
  }

  /** Text in which the pattern's first character never appears is copied
      unchanged, and the replacement goes on with what follows it. */
  lemma {:induction false} ReplacePassesPrefix(a: string, t: string, pat: string, rep: string)
    requires pat != [] && pat[0] !in a
    ensures Replace(a + t, pat, rep) == a + Replace(t, pat, rep)
    decreases |a|
  {
    var s := a + t;
    if a == [] {
      assert s == t;
    } else if |s| < |pat| {
      assert Replace(t, pat, rep) == t;
    } else {
      assert !OccursAt(s, pat, 0) by {
        assert s[0..|pat|][0] == a[0];
      }
      ReplaceSkip(s, pat, rep);
      assert s[1..] == a[1..] + t;
      ReplacePassesPrefix(a[1..], t, pat, rep);
      Associate([a[0]], a[1..], Replace(t, pat, rep));
      assert [a[0]] + a[1..] == a;
    }
  }

  /** Text that starts with the pattern gets the replacement first. */
  lemma ReplaceHead(t: string, pat: string, rep: string)
    requires pat != []
    ensures Replace(pat + t, pat, rep) == rep + Replace(t, pat, rep)
  {
    assert (pat + t)[..|pat|] == pat && (pat + t)[|pat|..] == t;
  }

  /** The text from `k` on is the `n` characters at `k` followed by the rest. */
  lemma SplitAt(s: string, k: nat, n: nat)
    requires k + n <= |s|
    ensures s[k..] == s[k..k + n] + s[k + n..]
  {
  }

  /** Concatenation regrouped to the left. */
  lemma Associate(a: string, b: string, c: string)
    ensures a + (b + c) == a + b + c
  {
  }

  /** A first character followed by a prefix of the tail, then more text,
      regrouped as a prefix followed by that text. */
  lemma Regroup(s: string, k: nat, x: string, y: string)
    requires 0 < k <= |s| && x == s[1..][..k - 1]
    ensures [s[0]] + (x + y) == s[..k] + y
  {
    assert s[..k] == [s[0]] + x;
  }

  /** Deleting a one-character pattern (replacing it by text that does not
      contain it) leaves no occurrence of that character. */
  lemma {:induction false} ReplaceRemovesChar(s: string, c: char, rep: string)
    requires c !in rep
    ensures c !in Replace(s, [c], rep)
    decreases |s|
  {
    if |s| >= 1 {
      ReplaceRemovesChar(s[1..], c, rep);
      if s[..1] != [c] {
        assert s[0] != c;
      }
    }
  }

  // ---------------------------------------------------------------------------
  // Decimal numbers

  predicate IsAsciiDigit(c: char) {
    '0' <= c <= '9'
  }

  predicate IsAsciiAlnum(c: char) {
    ('0' <= c <= '9') || ('a' <= c <= 'z') || ('A' <= c <= 'Z')
  }

  predicate AllDigits(s: string) {
    forall i :: 0 <= i < |s| ==> IsAsciiDigit(s[i])
  }

  function DigitChar(d: nat): (c: char)
    requires d < 10
    ensures IsAsciiDigit(c) && c as int - '0' as int == d
  {
    ('0' as int + d) as char
  }

  /** `str(n)` for a natural number: its decimal digits, most significant first. */
  function NatToString(n: nat): (r: string)
    ensures |r| >= 1 && AllDigits(r)
  {
    if n < 10 then [DigitChar(n)] else NatToString(n / 10) + [DigitChar(n % 10)]
  }

  /** The number a run of ASCII digits denotes, skipping `_` separators as
      Python's `int` does. */
  function DigitValue(c: char): nat
    requires IsAsciiDigit(c)
  {
    c as int - '0' as int
  }

  function DecimalValue(s: string): nat
    requires forall i :: 0 <= i < |s| ==> IsAsciiDigit(s[i]) || s[i] == '_'
  {
    if s == [] then 0
    else if s[|s| - 1] == '_' then DecimalValue(s[..|s| - 1])
    else DecimalValue(s[..|s| - 1]) * 10 + DigitValue(s[|s| - 1])
  }

  /** Reading back the decimal text of `n` gives `n`. */
  lemma {:induction false} DecimalRoundTrip(n: nat)
    ensures DecimalValue(NatToString(n)) == n
  {
    if n >= 10 {
      var s := NatToString(n);
      assert s[..|s| - 1] == NatToString(n / 10);
      DecimalRoundTrip(n / 10);
    }
  }

  /** Distinct numbers have distinct decimal texts. */
  lemma NatToStringInjective(m: nat, n: nat)
    requires NatToString(m) == NatToString(n)
    ensures m == n
  {
    DecimalRoundTrip(m);
    DecimalRoundTrip(n);
  }

  /** The digit body Python's `int` accepts: digits, with single underscores
      allowed only between two digits. */
  predicate IsDigitGroup(s: string) {
    && |s| > 0 && IsAsciiDigit(s[0]) && IsAsciiDigit(s[|s| - 1])
    && (forall i :: 0 <= i < |s| ==> IsAsciiDigit(s[i]) || s[i] == '_')
    && (forall i :: 0 <= i < |s| - 1 && s[i] == '_' ==> s[i + 1] != '_')
  }

  /** `int(s)` on ASCII text: surrounding whitespace is ignored, one optional
      sign is allowed; `None` stands for the ValueError Python raises. */
  function PyInt(s: string): Option<int> {
    var t := Strip(s);
    if t != [] && (t[0] == '+' || t[0] == '-') then
      if IsDigitGroup(t[1..]) then
        Some(if t[0] == '-' then -(DecimalValue(t[1..]) as int) else DecimalValue(t[1..]))
      else None
    else if IsDigitGroup(t) then Some(DecimalValue(t))
    else None
  }

  /** `int(str(n)) == n`. */
  lemma PyIntOfNatToString(n: nat)
    ensures PyInt(NatToString(n)) == Some(n)
  {
    var s := NatToString(n);
    assert IsAsciiDigit(s[0]) && IsAsciiDigit(s[|s| - 1]);
    StripFixed(s);
    assert Strip(s) == s;
    DecimalRoundTrip(n);
    assert IsDigitGroup(s);
    assert s[0] != '+' && s[0] != '-';
  }

  /** `int(s)` succeeds only on text made of whitespace, digits, underscores and
      signs: any other character, a letter for instance, makes it raise. */
  lemma PyIntAlphabet(s: string)
    requires PyInt(s).Some?
    ensures forall i :: 0 <= i < |s| ==>
              IsSpace(s[i]) || IsAsciiDigit(s[i]) || s[i] == '_' || s[i] == '+' || s[i] == '-'
  {
    var t := Strip(s);
    StripKeeps(s);
    forall j | 0 <= j < |t|
      ensures IsAsciiDigit(t[j]) || t[j] == '_' || t[j] == '+' || t[j] == '-'
    {
      if j > 0 && (t[0] == '+' || t[0] == '-') {
        assert t[1..][j - 1] == t[j];
      }
    }
  }
}
