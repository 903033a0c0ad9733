/** The pieces of JavaScript's string library that the scripts rely on: the `\s` character
    class and `String.prototype.trim`, `startsWith`, `indexOf`, `split`/`join`, and the
    decimal rendering and parsing of integers. */
module Strings {
  import opened Wrappers

  /** JavaScript's `\s` class, which is also the set `trim()` removes: the WhiteSpace and
      LineTerminator code points of ECMAScript. */
  predicate IsSpace(c: char)
  {
    var n := c as int;
    (9 <= n <= 13) || n == 0x20 || n == 0xA0 || n == 0x1680 || (0x2000 <= n <= 0x200A) ||
    n == 0x2028 || n == 0x2029 || n == 0x202F || n == 0x205F || n == 0x3000 || n == 0xFEFF
  }

  /** The code points that `.` in a regular expression does not match. */
  predicate IsLineTerminator(c: char)
  {
    c == '\n' || c == '\r' || c as int == 0x2028 || c as int == 0x2029
  }

  lemma LineTerminatorIsSpace(c: char)
    requires IsLineTerminator(c)
    ensures IsSpace(c)
  {
  }

  predicate IsDigit(c: char)
  {
    '0' <= c <= '9'
  }

  predicate AllSpace(s: string)
  {
    forall i :: 0 <= i < |s| ==> IsSpace(s[i])
  }

  /** `s` with its leading `\s` characters removed. */
  function TrimStart(s: string): (r: string)
    ensures |r| <= |s| && r == s[|s| - |r|..]
    ensures r == [] || !IsSpace(r[0])
  {
    if s != [] && IsSpace(s[0]) then TrimStart(s[1..]) else s
  }

  /** What `TrimStart` removes is white space. */
  lemma {:induction false} TrimStartRemovesSpace(s: string)
    ensures AllSpace(s[..|s| - |TrimStart(s)|])
  {
    if s != [] && IsSpace(s[0]) {
      TrimStartRemovesSpace(s[1..]);
      var r := TrimStart(s[1..]);
      assert s[1..][..|s| - 1 - |r|] == s[1..|s| - |r|];
    }
  }

  /** `s` with its trailing `\s` characters removed. */
  function TrimEnd(s: string): (r: string)
    ensures |r| <= |s| && r == s[..|r|]
    ensures r == [] || !IsSpace(r[|r| - 1])
  {
    if s != [] && IsSpace(s[|s| - 1]) then TrimEnd(s[..|s| - 1]) else s
  }

  /** What `TrimEnd` removes is white space. */
  lemma {:induction false} TrimEndRemovesSpace(s: string)
    ensures AllSpace(s[|TrimEnd(s)|..])
  {
    if s != [] && IsSpace(s[|s| - 1]) {
      TrimEndRemovesSpace(s[..|s| - 1]);
      var r := TrimEnd(s[..|s| - 1]);
      assert s[..|s| - 1][|r|..] == s[|r|..|s| - 1];
    }
  }

  /** `String.prototype.trim`. */
  function Trim(s: string): (r: string)
  {
    TrimEnd(TrimStart(s))
  }

  /** The result of `trim()` neither begins nor ends with white space, and it is what lies
      between a white-space prefix and a white-space suffix of the input. */
  lemma TrimShape(s: string)
    ensures Trim(s) == [] || (!IsSpace(Trim(s)[0]) && !IsSpace(Trim(s)[|Trim(s)| - 1]))
    ensures exists i :: 0 <= i <= |s| - |Trim(s)| && s[i..i + |Trim(s)|] == Trim(s)
              && AllSpace(s[..i]) && AllSpace(s[i + |Trim(s)|..])
  {
    TrimUnpaddedEnds(s);
    TrimSpan(s, |s| - |TrimStart(s)|);
  }

  lemma TrimUnpaddedEnds(s: string)
    ensures Trim(s) == [] || (!IsSpace(Trim(s)[0]) && !IsSpace(Trim(s)[|Trim(s)| - 1]))
  {
    var a := TrimStart(s);
    var r := TrimEnd(a);
    if r != [] {
      assert r[0] == a[0];
    }
  }

  lemma TrimSpan(s: string, i: nat)
    requires i == |s| - |TrimStart(s)|
    ensures i <= |s| - |Trim(s)| && s[i..i + |Trim(s)|] == Trim(s)
    ensures AllSpace(s[..i]) && AllSpace(s[i + |Trim(s)|..])
  {
    TrimStartRemovesSpace(s);
    TrimMiddlePart(s, i);
    TrimRightPart(s, i);
  }

  lemma TrimMiddlePart(s: string, i: nat)
    requires i == |s| - |TrimStart(s)|
    ensures i + |Trim(s)| <= |s| && s[i..i + |Trim(s)|] == Trim(s)
  {
    TrimMiddle(s, i, TrimStart(s), TrimEnd(TrimStart(s)));
  }

  lemma TrimRightPart(s: string, i: nat)
    requires i == |s| - |TrimStart(s)|
    ensures i + |Trim(s)| <= |s| && AllSpace(s[i + |Trim(s)|..])
  {
    TrimEndRemovesSpace(TrimStart(s));
    TrimRight(s, i, TrimStart(s), TrimEnd(TrimStart(s)));
  }

  lemma TrimMiddle(s: string, i: nat, a: string, r: string)
    requires i <= |s| && a == s[i..] && |r| <= |a| && r == a[..|r|]
    ensures i + |r| <= |s| && s[i..i + |r|] == r
  {
    DropSlices(s, i, |r|);
  }

  lemma TrimRight(s: string, i: nat, a: string, r: string)
    requires i <= |s| && a == s[i..] && |r| <= |a| && AllSpace(a[|r|..])
    ensures i + |r| <= |s| && AllSpace(s[i + |r|..])
  {
    DropSlices(s, i, |r|);
  }

  lemma DropSlices<T>(s: seq<T>, i: nat, j: nat)
    requires i + j <= |s|
    ensures s[i..][..j] == s[i..i + j] && s[i..][j..] == s[i + j..]
  {
  }


  lemma {:induction false} TrimStartOfSpacePrefix(w: string, x: string)
    requires AllSpace(w)
    ensures TrimStart(w + x) == TrimStart(x)
  {
    if w != [] {
      var s := w + x;
      assert s[0] == w[0] && IsSpace(w[0]);
      assert s[1..] == w[1..] + x;
      assert AllSpace(w[1..]);
      TrimStartOfSpacePrefix(w[1..], x);
    } else {
      assert w + x == x;
    }
  }

  lemma {:induction false} TrimEndOfSpaceSuffix(x: string, w: string)
    requires AllSpace(w)
    ensures TrimEnd(x + w) == TrimEnd(x)
  {
    if w != [] {
      var s := x + w;
      assert s[|s| - 1] == w[|w| - 1] && IsSpace(w[|w| - 1]);
      assert s[..|s| - 1] == x + w[..|w| - 1];
      assert AllSpace(w[..|w| - 1]);
      TrimEndOfSpaceSuffix(x, w[..|w| - 1]);
    } else {
      assert x + w == x;
    }
  }

  lemma {:induction false} TrimStartKeepsSpaceSuffix(x: string, w: string)
    requires AllSpace(w)
    requires !AllSpace(x)
    ensures TrimStart(x + w) == TrimStart(x) + w
  {
    var j :| 0 <= j < |x| && !IsSpace(x[j]);
    assert (x + w)[0] == x[0];
    if IsSpace(x[0]) {
      assert x[1..][j - 1] == x[j];
      assert (x + w)[1..] == x[1..] + w;
      TrimStartKeepsSpaceSuffix(x[1..], w);
    }
  }

  lemma {:induction false} TrimStartAllSpace(s: string)
    ensures TrimStart(s) == [] <==> AllSpace(s)
  {
    if s != [] {
      AllSpaceCons(s);
      if IsSpace(s[0]) {
        TrimStartAllSpace(s[1..]);
      }
    }
  }

  lemma AllSpaceCons(s: string)
    requires s != []
    ensures AllSpace(s) <==> IsSpace(s[0]) && AllSpace(s[1..])
  {
    if IsSpace(s[0]) && AllSpace(s[1..]) {
      forall i | 1 <= i < |s| ensures IsSpace(s[i]) {
        assert s[i] == s[1..][i - 1];
      }
    }
  }

  /** Surrounding white space does not change the result of `trim()`. */
  lemma TrimAroundSpace(w1: string, x: string, w2: string)
    requires AllSpace(w1) && AllSpace(w2)
    ensures Trim(w1 + x + w2) == Trim(x)
  {
    assert w1 + x + w2 == w1 + (x + w2);
    TrimStartOfSpacePrefix(w1, x + w2);
    if AllSpace(x) {
      TrimOfBlank(x, w2);
    } else {
      TrimStartKeepsSpaceSuffix(x, w2);
      TrimEndOfSpaceSuffix(TrimStart(x), w2);
    }
  }

  lemma TrimOfBlank(x: string, w: string)
    requires AllSpace(x) && AllSpace(w)
    ensures TrimStart(x + w) == [] && TrimStart(x) == []
  {
    assert AllSpace(x + w) by {
      forall i | 0 <= i < |x + w| ensures IsSpace((x + w)[i]) {
        if i < |x| { assert (x + w)[i] == x[i]; } else { assert (x + w)[i] == w[i - |x|]; }
      }
    }
    TrimStartAllSpace(x + w);
    TrimStartAllSpace(x);
  }

  /** A string that neither begins nor ends with white space is its own `trim()`. */
  lemma TrimUnpadded(x: string)
    requires x != [] && !IsSpace(x[0]) && !IsSpace(x[|x| - 1])
    ensures Trim(x) == x
  {
    assert TrimStart(x) == x;
  }

  /** `trim()` is idempotent. */
  lemma TrimIdempotent(s: string)
    ensures Trim(Trim(s)) == Trim(s)
  {
    TrimShape(s);
    var r := Trim(s);
    if r != [] {
      assert TrimStart(r) == r;
      assert TrimEnd(r) == r;
    }
  }

  /** `p` occurs in `s` starting at index `i`. */
  predicate IsAt(s: string, i: nat, p: string)
  {
    i + |p| <= |s| && s[i..i + |p|] == p
  }

  /** `s.startsWith(p)`. */
  predicate StartsWith(s: string, p: string)
  {
    IsAt(s, 0, p)
  }

  /** `s.indexOf(p, i)` for a start index within `s`, as an option: the first occurrence of
      `p` that starts at `i` or later. */
  function FindFrom(s: string, p: string, i: nat): (r: Option<nat>)
    requires i <= |s|
    ensures r.Some? ==> i <= r.value <= |s| && IsAt(s, r.value, p)
    decreases |s| - i
  {
    if IsAt(s, i, p) then Some(i)
    else if i == |s| then None
    else FindFrom(s, p, i + 1)
  }

  /** The search finds the first occurrence, and finds none only when there is none. */
  lemma {:induction false} FindFromSpan(s: string, p: string, i: nat)
    requires i <= |s|
    ensures FindFrom(s, p, i).Some? ==> forall j :: i <= j < FindFrom(s, p, i).value ==> !IsAt(s, j, p)
    ensures FindFrom(s, p, i).None? ==> forall j :: i <= j <= |s| ==> !IsAt(s, j, p)
    decreases |s| - i
  {
    if !IsAt(s, i, p) && i < |s| {
      FindFromSpan(s, p, i + 1);
    }
  }

  /** With no occurrence from `i` on, the search finds none. */
  lemma {:induction false} FindFromAbsent(s: string, p: string, i: nat)
    requires i <= |s|
    requires forall j :: i <= j <= |s| ==> !IsAt(s, j, p)
    ensures FindFrom(s, p, i).None?
    decreases |s| - i
  {
    if i < |s| {
      FindFromAbsent(s, p, i + 1);
    }
  }

  /** If `p` occurs at `k` and nowhere in `[i, k)`, the search from `i` finds `k`. */
  lemma {:induction false} FindFromIs(s: string, p: string, i: nat, k: nat)
    requires i <= k <= |s|
    requires IsAt(s, k, p)
    requires forall j :: i <= j < k ==> !IsAt(s, j, p)
    ensures FindFrom(s, p, i) == Some(k)
    decreases k - i
  {
    if i < k {
      FindFromIs(s, p, i + 1, k);
    }
  }

  predicate Contains(s: string, p: string)
  {
    exists k :: 0 <= k <= |s| && IsAt(s, k, p)
  }

  /** An occurrence of `p` in `x + [c] + y` lies inside `x` or inside `y` when `c` is not a
      character of `p`. */
  lemma NotContainsAcross(x: string, c: char, y: string, p: string)
    requires c !in p
    requires !Contains(x, p) && !Contains(y, p)
    ensures !Contains(x + [c] + y, p)
  {
    var s := x + [c] + y;
    forall k | 0 <= k <= |s|
      ensures !IsAt(s, k, p)
    {
      if k + |p| > |s| {
      } else if k + |p| <= |x| {
        assert s[k..k + |p|] == x[k..k + |p|];
        assert !IsAt(x, k, p);
      } else if k > |x| {
        assert s[k..k + |p|] == y[k - |x| - 1..k - |x| - 1 + |p|];
        assert !IsAt(y, k - |x| - 1, p);
      } else {
        assert s[k..k + |p|][|x| - k] == s[|x|] == c;
        assert p[|x| - k] != c;
      }
    }
  }

  lemma NotContainsPrefix(s: string, n: nat, p: string)
    requires n <= |s|
    requires !Contains(s, p)
    ensures !Contains(s[..n], p)
  {
    forall k | 0 <= k <= n
      ensures !IsAt(s[..n], k, p)
    {
      if k + |p| <= n {
        assert s[..n][k..k + |p|] == s[k..k + |p|];
        assert !IsAt(s, k, p);
      }
    }
  }

  lemma NotContainsSuffix(s: string, n: nat, p: string)
    requires n <= |s|
    requires !Contains(s, p)
    ensures !Contains(s[n..], p)
  {
    forall k | 0 <= k <= |s| - n
      ensures !IsAt(s[n..], k, p)
    {
      if k + |p| <= |s| - n {
        assert s[n..][k..k + |p|] == s[n + k..n + k + |p|];
        assert !IsAt(s, n + k, p);
      }
    }
  }

  /** A pattern whose first character does not occur in `s` does not occur in `s`. */
  lemma NotContainsByHead(s: string, p: string)
    requires p != [] && p[0] !in s
    ensures !Contains(s, p)
  {
    forall k | 0 <= k <= |s|
      ensures !IsAt(s, k, p)
    {
      if k + |p| <= |s| {
        assert s[k..k + |p|][0] == s[k] != p[0];
      }
    }
  }

  /** `ys.map(y => p + y)`: each string with the same prefix in front. */
  function Prefixed(p: string, ys: seq<string>): (r: seq<string>)
    ensures |r| == |ys| && forall i :: 0 <= i < |ys| ==> r[i] == p + ys[i]
  {
    seq(|ys|, i requires 0 <= i < |ys| => p + ys[i])
  }

  /** `xs.join(sep)`. */
  function Join(xs: seq<string>, sep: string): (r: string)
    ensures xs != [] ==> |r| >= |xs[0]|
  {
    if xs == [] then ""
    else if |xs| == 1 then xs[0]
    else xs[0] + sep + Join(xs[1..], sep)
  }

  /** `s.split(c)` for a one-character separator. */
  function Split(s: string, c: char): (r: seq<string>)
    ensures |r| > 0
    decreases |s|
  {
    if c in s then
      var i := IndexOfChar(s, c);
      [s[..i]] + Split(s[i + 1..], c)
    else [s]
  }

  /** The index of the first `c` in `s`. */
  function IndexOfChar(s: string, c: char): (i: nat)
    requires c in s
    ensures i < |s| && s[i] == c && c !in s[..i]
  {
    if s[0] == c then 0
    else
      var j := IndexOfChar(s[1..], c);
      assert s[..j + 1] == [s[0]] + s[1..][..j];
      j + 1
  }

  lemma IndexOfCharIs(s: string, c: char, k: nat)
    requires k < |s| && s[k] == c && c !in s[..k]
    ensures IndexOfChar(s, c) == k
  {
    if k > 0 {
      assert s[0] == s[..k][0];
      assert s[1..][k - 1] == s[k];
      assert s[1..][..k - 1] == s[1..k];
      IndexOfCharIs(s[1..], c, k - 1);
    }
  }

  lemma IndexOfCharPrefix(x: string, c: char, y: string)
    requires c !in x
    ensures c in x + [c] + y && IndexOfChar(x + [c] + y, c) == |x|
  {
    var s := x + [c] + y;
    assert s[|x|] == c;
    assert s[..|x|] == x;
    IndexOfCharIs(s, c, |x|);
  }

  /** Splitting a join at a separator that no piece contains gives back the pieces. */
  lemma {:induction false} SplitJoin(xs: seq<string>, c: char)
    requires xs != []
    requires forall i :: 0 <= i < |xs| ==> c !in xs[i]
    ensures Split(Join(xs, [c]), c) == xs
  {
    if |xs| > 1 {
      var rest := Join(xs[1..], [c]);
      IndexOfCharPrefix(xs[0], c, rest);
      var s := xs[0] + [c] + rest;
      assert s[..|xs[0]|] == xs[0];
      assert s[|xs[0]| + 1..] == rest;
      SplitJoin(xs[1..], c);
    }
  }

  /** The decimal digits of a natural number, as `Number.prototype.toString` writes them. */
  function NatToString(n: nat): (r: string)
    ensures |r| > 0 && forall i :: 0 <= i < |r| ==> IsDigit(r[i])
    ensures n < 10 <==> |r| == 1
    ensures 10 <= n < 100 <==> |r| == 2
  {
    if n < 10 then [DigitChar(n)]
    else NatToString(n / 10) + [DigitChar(n % 10)]
  }

  function DigitChar(d: nat): (c: char)
    requires d < 10
    ensures IsDigit(c) && DigitValue(c) == d
  {
    (('0' as int) + d) as char
  }

  function DigitValue(c: char): nat
    requires IsDigit(c)
  {
    c as int - '0' as int
  }

  /** `String(n)` for an integer: a minus sign before the magnitude when negative. */
  function IntToString(n: int): string
  {
    if n < 0 then "-" + NatToString(-n) else NatToString(n)
  }

  predicate AllDigits(s: string)
  {
    forall i :: 0 <= i < |s| ==> IsDigit(s[i])
  }

  /** The value of a run of decimal digits, as `parseInt(s, 10)` reads it. */
  function DigitsValue(s: string): nat
    requires AllDigits(s)
  {
    if s == [] then 0 else 10 * DigitsValue(s[..|s| - 1]) + DigitValue(s[|s| - 1])
  }

  /** Reading back the decimal rendering of a number gives the number. */
  lemma {:induction false} DigitsValueOfNatToString(n: nat)
    ensures AllDigits(NatToString(n)) && DigitsValue(NatToString(n)) == n
  {
    if n >= 10 {
      var s := NatToString(n);
      assert s[..|s| - 1] == NatToString(n / 10);
      DigitsValueOfNatToString(n / 10);
    }
  }
}
