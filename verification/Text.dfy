/** Strings as the source uses them: code-point order, decimal numerals, ASCII case folding. */
module Text {

  datatype Option<+T> = None | Some(value: T) {
    function GetOr(default: T): T {
      match this
      case Some(v) => v
      case None => default
    }
  }

  /** Python's `a < b` on strings: code-point lexicographic order. */
  predicate Below(a: string, b: string)
  {
    b != "" && (a == "" || a[0] < b[0] || (a[0] == b[0] && Below(a[1..], b[1..])))
  }

  predicate AtMost(a: string, b: string)
  {
    a == b || Below(a, b)
  }

  lemma {:induction false} BelowIsStrictTotal(a: string, b: string)
    ensures !Below(a, a)
    ensures (if Below(a, b) then 1 else 0) + (if a == b then 1 else 0) + (if Below(b, a) then 1 else 0) == 1
    decreases |a| + |b|
  {
    if a != "" {
      BelowIsStrictTotal(a[1..], "");
      if b != "" {
        BelowIsStrictTotal(a[1..], b[1..]);
        assert a == [a[0]] + a[1..] && b == [b[0]] + b[1..];
      }
    }
  }

  lemma {:induction false} BelowTransitive(a: string, b: string, c: string)
    requires Below(a, b) && Below(b, c)
    ensures Below(a, c)
  {
    if a != "" && a[0] == b[0] && b[0] == c[0] {
      BelowTransitive(a[1..], b[1..], c[1..]);
    }
  }

  /** At the first place where they differ the smaller character decides; a proper prefix comes first. */
  lemma {:induction false} BelowDecidedAt(a: string, b: string, n: nat)
    requires n <= |a| && n <= |b| && a[..n] == b[..n] && (n == |a| || n == |b| || a[n] != b[n])
    ensures Below(a, b) <==> n < |b| && (n == |a| || a[n] < b[n])
  {
    if n > 0 {
      assert a[0] == a[..n][0] == b[..n][0] == b[0];
      assert a[1..][..n - 1] == a[..n][1..] && b[1..][..n - 1] == b[..n][1..];
      BelowDecidedAt(a[1..], b[1..], n - 1);
    }
  }

  /** Extending two different strings of one length does not change their order. */
  lemma {:induction false} BelowByPrefix(p: string, q: string, x: string, y: string)
    requires |p| == |q|
    ensures p != q ==> (Below(p + x, q + y) <==> Below(p, q))
    ensures p == q ==> (Below(p + x, q + y) <==> Below(x, y))
  {
    if p == "" {
      assert p + x == x && q + y == y;
    } else {
      assert (p + x)[1..] == p[1..] + x && (q + y)[1..] == q[1..] + y;
      assert p == [p[0]] + p[1..] && q == [q[0]] + q[1..];
      BelowByPrefix(p[1..], q[1..], x, y);
    }
  }

  // ----- decimal numerals ------------------------------------------------

  predicate IsDigit(c: char)
  {
    '0' <= c <= '9'
  }

  function Digit(d: nat): (c: char)
    requires d < 10
    ensures IsDigit(c) && DigitValue(c) == d
  {
    (48 + d) as char
  }

  function DigitValue(c: char): (d: nat)
    requires IsDigit(c)
    ensures d < 10
  {
    c as int - 48
  }

  predicate AllDigits(s: string)
  {
    forall i :: 0 <= i < |s| ==> IsDigit(s[i])
  }

  /** `str(n)`. */
  function Dec(n: nat): string
  {
    if n < 10 then [Digit(n)] else Dec(n / 10) + [Digit(n % 10)]
  }

  /** `int(s)` on ASCII digits. */
  function Val(s: string): nat
    requires AllDigits(s)
  {
    if s == "" then 0 else 10 * Val(s[..|s| - 1]) + DigitValue(s[|s| - 1])
  }

  lemma {:induction false} DecIsANumeral(n: nat)
    ensures Dec(n) != "" && AllDigits(Dec(n)) && Val(Dec(n)) == n
  {
    if n >= 10 {
      DecIsANumeral(n / 10);
      assert Dec(n)[..|Dec(n)| - 1] == Dec(n / 10);
    } else {
      assert Dec(n)[..0] == "";
    }
  }

  /** `f"{n:0{w}d}"` for numbers that fit. */
  function Pad(n: nat, w: nat): (s: string)
    ensures |s| == w
  {
    if w == 0 then "" else Pad(n / 10, w - 1) + [Digit(n % 10)]
  }

  function Pow10(w: nat): nat
  {
    if w == 0 then 1 else 10 * Pow10(w - 1)
  }

  /** Zero-padded numerals of one width sort like the numbers. */
  lemma {:induction false} PadPreservesOrder(m: nat, n: nat, w: nat)
    requires m < Pow10(w) && n < Pow10(w)
    ensures Below(Pad(m, w), Pad(n, w)) <==> m < n
    ensures Pad(m, w) == Pad(n, w) <==> m == n
  {
    if w > 0 {
      PadPreservesOrder(m / 10, n / 10, w - 1);
      var p, q := Pad(m / 10, w - 1), Pad(n / 10, w - 1);
      BelowByPrefix(p, q, [Digit(m % 10)], [Digit(n % 10)]);
      assert Below([Digit(m % 10)], [Digit(n % 10)]) <==> m % 10 < n % 10;
      assert Pad(m, w)[..w - 1] == p && Pad(n, w)[..w - 1] == q;
      assert Pad(m, w)[w - 1] == Digit(m % 10) && Pad(n, w)[w - 1] == Digit(n % 10);
    }
  }

  // ----- case and white space --------------------------------------------

  function LowerChar(c: char): char
  {
    if 'A' <= c <= 'Z' then (c as int + 32) as char else c
  }

  /** `s.lower()` on ASCII letters. */
  function Lower(s: string): (r: string)
    ensures |r| == |s|
  {
    if s == "" then "" else [LowerChar(s[0])] + Lower(s[1..])
  }

  /** The characters `str.strip()` removes. */
  predicate IsSpace(c: char)
  {
    || '\t' <= c <= '\r'
    || '\U{1c}' <= c <= ' '
    || c == '\U{85}' || c == '\U{a0}' || c == '\U{1680}'
    || '\U{2000}' <= c <= '\U{200a}'
    || c == '\U{2028}' || c == '\U{2029}' || c == '\U{202f}' || c == '\U{205f}' || c == '\U{3000}'
  }

  /** White space, one character at a time. */
  lemma SpacesExactly(c: char)
    ensures IsSpace(c) <==>
      c in {'\t', '\n', '\U{b}', '\U{c}', '\r', '\U{1c}', '\U{1d}', '\U{1e}', '\U{1f}', ' ', '\U{85}', '\U{a0}',
            '\U{1680}', '\U{2000}', '\U{2001}', '\U{2002}', '\U{2003}', '\U{2004}', '\U{2005}', '\U{2006}', '\U{2007}',
            '\U{2008}', '\U{2009}', '\U{200a}', '\U{2028}', '\U{2029}', '\U{202f}', '\U{205f}', '\U{3000}'}
  {
  }

  function LStrip(s: string): string
  {
    if s != "" && IsSpace(s[0]) then LStrip(s[1..]) else s
  }

  function RStrip(s: string): string
  {
    if s != "" && IsSpace(s[|s| - 1]) then RStrip(s[..|s| - 1]) else s
  }

  function Strip(s: string): string
  {
    RStrip(LStrip(s))
  }

  predicate Trimmed(s: string)
  {
    s == "" || (!IsSpace(s[0]) && !IsSpace(s[|s| - 1]))
  }

  lemma {:induction false} StripTrims(s: string)
    ensures Trimmed(Strip(s))
    ensures Trimmed(s) <==> Strip(s) == s
  {
    LStripDropsSpaces(s);
    RStripDropsSpaces(LStrip(s));
  }

  lemma {:induction false} LStripDropsSpaces(s: string)
    ensures LStrip(s) == "" || !IsSpace(LStrip(s)[0])
    ensures |LStrip(s)| <= |s| && LStrip(s) == s[|s| - |LStrip(s)|..]
    ensures s != "" && IsSpace(s[0]) ==> |LStrip(s)| < |s|
  {
    if s != "" && IsSpace(s[0]) {
      LStripDropsSpaces(s[1..]);
    }
  }

  lemma {:induction false} RStripDropsSpaces(s: string)
    ensures RStrip(s) == "" || !IsSpace(RStrip(s)[|RStrip(s)| - 1])
    ensures |RStrip(s)| <= |s| && RStrip(s) == s[..|RStrip(s)|]
    ensures s != "" && IsSpace(s[|s| - 1]) ==> |RStrip(s)| < |s|
  {
    if s != "" && IsSpace(s[|s| - 1]) {
      RStripDropsSpaces(s[..|s| - 1]);
    }
  }

  /** Only outer space goes, and all of it. */
  lemma StripExactly(s: string) returns (i: nat, j: nat)
    ensures i <= j <= |s| && Strip(s) == s[i..j] && Trimmed(s[i..j])
    ensures forall k :: 0 <= k < i || j <= k < |s| ==> IsSpace(s[k])
  {
    LStripDropsSpaces(s);
    LStripDropsOnlySpaces(s);
    var t := LStrip(s);
    RStripDropsSpaces(t);
    RStripDropsOnlySpaces(t);
    i := |s| - |t|;
    j := i + |RStrip(t)|;
    StripTrims(s);
    assert forall k :: j <= k < |s| ==> s[k] == t[k - i];
  }

  lemma {:induction false} LStripDropsOnlySpaces(s: string)
    ensures |LStrip(s)| <= |s| && forall k :: 0 <= k < |s| - |LStrip(s)| ==> IsSpace(s[k])
  {
    if s != "" && IsSpace(s[0]) {
      LStripDropsOnlySpaces(s[1..]);
      assert forall k :: 0 < k < |s| ==> s[k] == s[1..][k - 1];
    }
  }

  lemma {:induction false} RStripDropsOnlySpaces(s: string)
    ensures forall k :: |RStrip(s)| <= k < |s| ==> IsSpace(s[k])
  {
    if s != "" && IsSpace(s[|s| - 1]) {
      RStripDropsOnlySpaces(s[..|s| - 1]);
    }
  }

  /** Capitals are lowered one by one, everything else stays. */
  lemma {:induction false} LowerAt(s: string, i: nat)
    requires i < |s|
    ensures 'A' <= s[i] <= 'Z' ==> 'a' <= Lower(s)[i] <= 'z' && Lower(s)[i] - 'a' == s[i] - 'A'
    ensures !('A' <= s[i] <= 'Z') ==> Lower(s)[i] == s[i]
  {
    if i > 0 {
      LowerAt(s[1..], i - 1);
    }
  }

  /** What strips to nothing is nothing but space. */
  lemma BlankExactly(s: string)
    ensures Strip(s) == "" <==> forall i :: 0 <= i < |s| ==> IsSpace(s[i])
  {
    LStripBlank(s);
    RStripBlank(LStrip(s));
    LStripDropsSpaces(s);
  }

  lemma {:induction false} LStripBlank(s: string)
    ensures LStrip(s) == "" <==> forall i :: 0 <= i < |s| ==> IsSpace(s[i])
  {
    if s != "" && IsSpace(s[0]) {
      LStripBlank(s[1..]);
      assert forall i :: 0 < i < |s| ==> s[i] == s[1..][i - 1];
    }
  }

  lemma {:induction false} RStripBlank(s: string)
    ensures RStrip(s) == "" <==> forall i :: 0 <= i < |s| ==> IsSpace(s[i])
  {
    if s != "" && IsSpace(s[|s| - 1]) {
      RStripBlank(s[..|s| - 1]);
      assert forall i :: 0 <= i < |s| - 1 ==> s[i] == s[..|s| - 1][i];
    }
  }
}
