/**
 * The Python string built-ins the bot uses, over `string` = `seq<char>`:
 * `str(n)`, `int(s)`, `sub in s`, `str.lower`, `str.split()`, `str.replace`,
 * `sep.join`, and the code-point order behind `sorted` on strings.
 */
module Text {
  import opened Order

  predicate IsDigit(c: char) {
    '0' <= c <= '9'
  }

  /** A non-empty run of decimal digits: the ids `int(season_id)` accepts in this model. */
  predicate IsNumeral(s: string) {
    |s| > 0 && forall i :: 0 <= i < |s| ==> IsDigit(s[i])
  }

  function DigitChar(d: nat): (c: char)
    requires d < 10
    ensures IsDigit(c)
  {
    (48 + d) as char
  }

  function DigitValue(c: char): (d: nat)
    requires IsDigit(c)
    ensures d < 10 && DigitChar(d) == c
  {
    (c as int) - ('0' as int)
  }

  /** `int(s)` for a string of digits; leading zeros are allowed, as in Python. */
  function NumeralValue(s: string): nat
    requires forall i :: 0 <= i < |s| ==> IsDigit(s[i])
  {
    if |s| == 0 then 0
    else NumeralValue(s[..|s| - 1]) * 10 + DigitValue(s[|s| - 1])
  }

  /** `str(n)` for a non-negative integer: canonical decimal digits that read back as `n`. */
  function NatToString(n: nat): (s: string)
    ensures IsNumeral(s)
    ensures NumeralValue(s) == n
    ensures s[0] == '0' ==> n == 0
  {
    if n < 10 then [DigitChar(n)]
    else
      var prefix := NatToString(n / 10);
      var s := prefix + [DigitChar(n % 10)];
      assert s[..|s| - 1] == prefix;
      s
  }

  /** `str(i)` for any integer. */
  function IntToString(i: int): string
  {
    if i < 0 then "-" + NatToString(-i) else NatToString(i)
  }

  lemma NatToStringInjective(m: nat, n: nat)
    requires NatToString(m) == NatToString(n)
    ensures m == n
  {
  }

  // ---------------------------------------------------------------------------
  // Substrings
  // ---------------------------------------------------------------------------

  predicate StartsWith(s: string, prefix: string) {
    |prefix| <= |s| && s[..|prefix|] == prefix
  }

  /** `sub` is the block of `s` starting at position `i`. */
  predicate OccursAt(s: string, sub: string, i: int) {
    0 <= i && i + |sub| <= |s| && s[i..i + |sub|] == sub
  }

  /** Python's `sub in s`. */
  predicate Contains(s: string, sub: string)
    decreases |s|
  {
    StartsWith(s, sub) || (|s| > 0 && Contains(s[1..], sub))
  }

  /** `Contains` means: `sub` is the block of `s` at some position. */
  lemma {:induction false} ContainsIffOccurs(s: string, sub: string)
    ensures Contains(s, sub) <==> exists i :: OccursAt(s, sub, i)
    decreases |s|
  {
    if |s| > 0 {
      ContainsIffOccurs(s[1..], sub);
      if Contains(s[1..], sub) {
        var j :| OccursAt(s[1..], sub, j);
        assert s[j + 1..j + 1 + |sub|] == s[1..][j..j + |sub|];
        assert OccursAt(s, sub, j + 1);
      }
      if OccursAt(s, sub, 0) {
        assert StartsWith(s, sub);
      }
      if StartsWith(s, sub) {
        assert OccursAt(s, sub, 0);
      }
      if i :| OccursAt(s, sub, i) && i > 0 {
        assert s[1..][i - 1..i - 1 + |sub|] == s[i..i + |sub|];
        assert OccursAt(s[1..], sub, i - 1);
      }
    } else {
      if i :| OccursAt(s, sub, i) {
        assert StartsWith(s, sub);
      }
      if Contains(s, sub) {
        assert OccursAt(s, sub, 0);
      }
    }
  }

  lemma ContainsAt(s: string, sub: string, i: nat)
    requires OccursAt(s, sub, i)
    ensures Contains(s, sub)
  {
    ContainsIffOccurs(s, sub);
  }

  /** A block of a block of `s` is a block of `s`. */
  lemma ContainsTransitive(s: string, mid: string, sub: string)
    requires Contains(s, mid) && Contains(mid, sub)
    ensures Contains(s, sub)
  {
    ContainsIffOccurs(s, mid);
    ContainsIffOccurs(mid, sub);
    var i :| OccursAt(s, mid, i);
    var j :| OccursAt(mid, sub, j);
    forall k | 0 <= k < |sub|
      ensures s[i + j + k] == sub[k]
    {
      assert mid[j + k] == sub[k];
      assert s[i + (j + k)] == mid[j + k];
    }
    assert s[i + j..i + j + |sub|] == sub;
    ContainsAt(s, sub, i + j);
  }

  // ---------------------------------------------------------------------------
  // Case and whitespace
  // ---------------------------------------------------------------------------

  /** `str.lower` on one character, for Latin A-Z and the Cyrillic capitals U+0400..U+042F. */
  function LowerChar(c: char): char
  {
    if 'A' <= c <= 'Z' || '\U{0410}' <= c <= '\U{042F}' then (c as int + 32) as char
    else if '\U{0400}' <= c <= '\U{040F}' then (c as int + 80) as char
    else c
  }

  function Lower(s: string): (r: string)
    ensures |r| == |s|
    ensures forall i :: 0 <= i < |s| ==> r[i] == LowerChar(s[i])
  {
    seq(|s|, i requires 0 <= i < |s| => LowerChar(s[i]))
  }

  /** Python's `str.isspace` on one character: the separators `str.split()` splits on. */
  predicate IsSpace(c: char) {
    || c == ' '
    || '\t' <= c <= '\r'
    || '\U{001C}' <= c <= '\U{001F}'
    || c == '\U{0085}' || c == '\U{00A0}' || c == '\U{1680}'
    || '\U{2000}' <= c <= '\U{200A}'
    || c == '\U{2028}' || c == '\U{2029}' || c == '\U{202F}' || c == '\U{205F}' || c == '\U{3000}'
  }

  /** Length of the leading run of non-space characters. */
  function WordLength(s: string): (n: nat)
    ensures n <= |s|
    ensures forall i :: 0 <= i < n ==> !IsSpace(s[i])
    ensures n < |s| ==> IsSpace(s[n])
  {
    if |s| == 0 || IsSpace(s[0]) then 0 else 1 + WordLength(s[1..])
  }

  predicate NoSpace(w: string) {
    forall i :: 0 <= i < |w| ==> !IsSpace(w[i])
  }

  /** `s.split()`: the maximal runs of non-space characters, in order. */
  function Words(s: string): (ws: seq<string>)
    ensures forall k :: 0 <= k < |ws| ==> |ws[k]| > 0 && NoSpace(ws[k]) && Contains(s, ws[k])
    decreases |s|
  {
    if |s| == 0 then []
    else if IsSpace(s[0]) then
      var rest := Words(s[1..]);
      forall k | 0 <= k < |rest| ensures Contains(s, rest[k]) { assert Contains(s[1..], rest[k]); }
      rest
    else
      var n := WordLength(s);
      var rest := Words(s[n..]);
      forall k | 0 <= k < |rest| ensures Contains(s, rest[k]) { ContainsInSuffix(s, n, rest[k]); }
      assert StartsWith(s, s[..n]);
      [s[..n]] + rest
  }

  lemma {:induction false} ContainsInSuffix(s: string, n: nat, sub: string)
    requires n <= |s| && Contains(s[n..], sub)
    ensures Contains(s, sub)
    decreases n
  {
    if n > 0 {
      assert s[1..][n - 1..] == s[n..];
      ContainsInSuffix(s[1..], n - 1, sub);
    }
  }

  /** A non-empty name without separators is its own only word. */
  lemma {:induction false} WordsOfOneWord(w: string)
    requires |w| > 0 && NoSpace(w)
    ensures Words(w) == [w]
  {
    assert WordLength(w) == |w| by { WordLengthOfNoSpace(w); }
    assert w[..|w|] == w;
    assert Words(w[|w|..]) == [];
  }

  lemma {:induction false} WordLengthOfNoSpace(w: string)
    requires NoSpace(w)
    ensures WordLength(w) == |w|
    decreases |w|
  {
    if |w| > 0 {
      WordLengthOfNoSpace(w[1..]);
    }
  }

  // ---------------------------------------------------------------------------
  // Replace and join
  // ---------------------------------------------------------------------------

  /** `s.replace(from, to)` for single characters. */
  function ReplaceChar(s: string, from: char, to: char): (r: string)
    ensures |r| == |s|
    ensures forall i :: 0 <= i < |s| ==> r[i] == (if s[i] == from then to else s[i])
  {
    seq(|s|, i requires 0 <= i < |s| => if s[i] == from then to else s[i])
  }

  /** `sep.join(parts)`. */
  function Join(sep: string, parts: seq<string>): string
  {
    if |parts| == 0 then ""
    else if |parts| == 1 then parts[0]
    else parts[0] + sep + Join(sep, parts[1..])
  }

  lemma JoinCons(sep: string, p: string, rest: seq<string>)
    requires |rest| > 0
    ensures Join(sep, [p] + rest) == p + sep + Join(sep, rest)
  {
    assert ([p] + rest)[1..] == rest;
  }

  /** Joining a joined head with more parts is joining all the parts at once. */
  lemma {:induction false} JoinFlatten(sep: string, head: seq<string>, rest: seq<string>)
    requires |head| > 0 && |rest| > 0
    ensures Join(sep, [Join(sep, head)] + rest) == Join(sep, head + rest)
    decreases |head|
  {
    JoinCons(sep, Join(sep, head), rest);
    if |head| == 1 {
      assert head + rest == [head[0]] + rest;
      JoinCons(sep, head[0], rest);
    } else {
      JoinFlatten(sep, head[1..], rest);
      JoinCons(sep, Join(sep, head[1..]), rest);
      assert head + rest == [head[0]] + (head[1..] + rest);
      JoinCons(sep, head[0], head[1..] + rest);
    }
  }

  // ---------------------------------------------------------------------------
  // Code-point order on strings (Python's `<` on str)
  // ---------------------------------------------------------------------------

  predicate LexLess(a: string, b: string)
    decreases |a|
  {
    if |a| == 0 then |b| > 0
    else if |b| == 0 then false
    else if a[0] != b[0] then a[0] < b[0]
    else LexLess(a[1..], b[1..])
  }

  lemma {:induction false} LexIrreflexive(a: string)
    ensures !LexLess(a, a)
    decreases |a|
  {
    if |a| > 0 { LexIrreflexive(a[1..]); }
  }

  lemma {:induction false} LexTransitive(a: string, b: string, c: string)
    requires LexLess(a, b) && LexLess(b, c)
    ensures LexLess(a, c)
    decreases |a|
  {
    if |a| > 0 && a[0] == b[0] && b[0] == c[0] {
      LexTransitive(a[1..], b[1..], c[1..]);
    }
  }

  lemma {:induction false} LexConnected(a: string, b: string)
    requires a != b
    ensures LexLess(a, b) || LexLess(b, a)
    decreases |a|
  {
    if |a| > 0 && |b| > 0 && a[0] == b[0] {
      assert a == [a[0]] + a[1..] && b == [b[0]] + b[1..];
      LexConnected(a[1..], b[1..]);
    }
  }

  /** Code-point order is a strict total order, so `sorted(set(names))` is well defined. */
  lemma LexLessIsStrictTotal()
    ensures StrictTotalOrder(LexLess)
  {
    forall a | true ensures !LexLess(a, a) { LexIrreflexive(a); }
    forall a, b, c | LexLess(a, b) && LexLess(b, c) ensures LexLess(a, c) { LexTransitive(a, b, c); }
    forall a, b | a != b ensures LexLess(a, b) || LexLess(b, a) { LexConnected(a, b); }
  }

  predicate IntLess(a: int, b: int) {
    a < b
  }

  lemma IntLessIsStrictTotal()
    ensures StrictTotalOrder(IntLess)
  {
  }
}
