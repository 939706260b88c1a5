/**
 * The string and number helpers of lib.c: strlen, strncmp, strcpy, strncpy,
 * strrev and itoa. A C string is a byte sequence holding a NUL; the helpers
 * that write in place work on an `array<byte>`.
 */
module Lib {
  import opened Types

  /**
   * The number of bytes before the first NUL among the first `n` bytes of `s`
   * (`n` when there is none). The bytes read are in bounds: either `n` fits in
   * `s`, or `s` holds a NUL that stops the scan.
   */
  function StrnLen(s: seq<byte>, n: nat): (k: nat)
    requires n <= |s| || NUL in s
    ensures k <= n && k <= |s|
    ensures forall i :: 0 <= i < k ==> s[i] != NUL
    ensures k < n ==> k < |s| && s[k] == NUL
  {
    if n == 0 || s[0] == NUL then 0
    else
      NulInTail(s);
      1 + StrnLen(s[1..], n - 1)
  }

  /** A NUL that is not the first byte is still there once the first byte is dropped. */
  lemma NulInTail(s: seq<byte>)
    requires |s| > 0 && s[0] != NUL
    ensures NUL in s ==> NUL in s[1..]
  {
    if NUL in s {
      var j :| 0 <= j < |s| && s[j] == NUL;
      assert s[1..][j - 1] == NUL;
    }
  }

  /** strlen: the index of the first NUL. */
  function Strlen(s: seq<byte>): (k: nat)
    requires NUL in s
    ensures k < |s| && s[k] == NUL
    ensures forall i :: 0 <= i < k ==> s[i] != NUL
  {
    StrnLen(s, |s|)
  }

  /** The characters of a C string, without its terminator. */
  function CString(s: seq<byte>): (r: seq<byte>)
    requires NUL in s
    ensures NUL !in r && |r| < |s|
    ensures r + [NUL] == s[..|r| + 1]
  {
    s[..Strlen(s)]
  }

  /**
   * The scan of strncmp from position `i`: the first position `k` in `i..n-1`
   * where the strings differ or `s1` ends, or `n` when there is none.
   */
  function CmpStop(s1: seq<byte>, s2: seq<byte>, n: nat, i: nat): (k: nat)
    requires i <= n
    requires (n <= |s1| && n <= |s2|) || (i <= |s1| && i <= |s2| && NUL in s1[i..] && NUL in s2[i..])
    decreases n - i
    ensures i <= k <= n && k <= |s1| && k <= |s2|
    ensures k < n ==> k < |s1| && k < |s2| && (s1[k] != s2[k] || s1[k] == NUL)
    ensures forall j :: i <= j < k ==> s1[j] == s2[j] && s1[j] != NUL
  {
    if i == n || s1[i] != s2[i] || s1[i] == NUL then i
    else
      if n <= |s1| && n <= |s2| then CmpStop(s1, s2, n, i + 1)
      else
        assert s1[i..][1..] == s1[i + 1..] && s2[i..][1..] == s2[i + 1..];
        NulInTail(s1[i..]);
        NulInTail(s2[i..]);
        CmpStop(s1, s2, n, i + 1)
  }

  /**
   * strncmp: the signed difference `s1[i] - s2[i]` at the first `i < n` where
   * the strings differ or `s1` ends, and 0 when there is no such `i`.
   */
  function Strncmp(s1: seq<byte>, s2: seq<byte>, n: nat): (r: int)
    requires (n <= |s1| && n <= |s2|) || (NUL in s1 && NUL in s2)
    ensures (forall j :: 0 <= j < n ==> j < |s1| && j < |s2| && s1[j] == s2[j] && s1[j] != NUL) ==> r == 0
    ensures forall i :: 0 <= i < n && i < |s1| && i < |s2| && (s1[i] != s2[i] || s1[i] == NUL) &&
                        (forall j :: 0 <= j < i ==> s1[j] == s2[j] && s1[j] != NUL)
                        ==> r == Signed(s1[i]) - Signed(s2[i])
  {
    assert s1[0..] == s1 && s2[0..] == s2;
    var k := CmpStop(s1, s2, n, 0);
    CmpStopFirst(s1, s2, n);
    if k < n then Signed(s1[k]) - Signed(s2[k]) else 0
  }

  /** The scan stops at the first position where the strings differ or `s1` ends, and only there. */
  lemma CmpStopFirst(s1: seq<byte>, s2: seq<byte>, n: nat)
    requires (n <= |s1| && n <= |s2|) || (NUL in s1 && NUL in s2)
    ensures s1[0..] == s1 && s2[0..] == s2
    ensures forall i :: 0 <= i < n && i < |s1| && i < |s2| && (s1[i] != s2[i] || s1[i] == NUL) &&
                        (forall j :: 0 <= j < i ==> s1[j] == s2[j] && s1[j] != NUL)
                        ==> i == CmpStop(s1, s2, n, 0)
  {
    assert s1[0..] == s1 && s2[0..] == s2;
  }

  /**
   * Comparing a NUL-free prefix of length `n`: strncmp gives 0 exactly when the
   * two strings agree on their first `n` bytes.
   */
  lemma StrncmpZeroIffPrefix(s1: seq<byte>, s2: seq<byte>, n: nat)
    requires n <= |s1| && n <= |s2|
    requires forall j :: 0 <= j < n ==> s1[j] != NUL
    ensures Strncmp(s1, s2, n) == 0 <==> s1[..n] == s2[..n]
  {
    var k := CmpStop(s1, s2, n, 0);
    if k < n {
      assert s1[..n][k] != s2[..n][k];
    } else {
      assert s1[..n] == s2[..n];
    }
  }

  /**
   * Comparing against a literal `lit` of length `n`: strncmp gives 0 exactly
   * when the C string `s` starts with `lit`.
   */
  lemma StrncmpLiteralPrefix(s: seq<byte>, lit: seq<byte>, n: nat)
    requires NUL in s
    requires |lit| == n + 1 && lit[n] == NUL && NUL !in lit[..n]
    ensures Strncmp(s, lit, n) == 0 <==> n <= Strlen(s) && s[..n] == lit[..n]
  {
    assert s[0..] == s && lit[0..] == lit;
    var k := CmpStop(s, lit, n, 0);
    if k < n {
      if n <= Strlen(s) {
        assert s[..n][k] != lit[..n][k];
      }
    } else {
      assert s[..n] == lit[..n];
    }
  }

  /** strcpy: `dest` receives `src` up to and including its terminator; nothing after it changes. */
  method Strcpy(dest: array<byte>, src: seq<byte>)
    requires NUL in src
    requires Strlen(src) < dest.Length
    modifies dest
    ensures dest[..Strlen(src) + 1] == src[..Strlen(src) + 1]
    ensures dest[Strlen(src) + 1..] == old(dest[Strlen(src) + 1..])
  {
    var i := 0;
    while src[i] != NUL
      invariant 0 <= i <= Strlen(src)
      invariant dest[..i] == src[..i]
      invariant forall j :: i <= j < dest.Length ==> dest[j] == old(dest[j])
      decreases Strlen(src) - i
    {
      dest[i] := src[i];
      i := i + 1;
    }
    dest[i] := NUL;
    assert dest[..i + 1] == dest[..i] + [dest[i]];
  }

  /**
   * strncpy: exactly `n` bytes are written, the source's characters (at most
   * `n` of them) followed by NUL padding; no terminator when the source has
   * at least `n` characters.
   */
  method Strncpy(dest: array<byte>, src: seq<byte>, n: nat)
    requires n <= |src| || NUL in src
    requires n <= dest.Length
    modifies dest
    ensures dest[..n] == src[..StrnLen(src, n)] + Zeros(n - StrnLen(src, n))
    ensures dest[n..] == old(dest[n..])
  {
    var i := 0;
    while i < n && src[i] != NUL
      invariant 0 <= i <= StrnLen(src, n)
      invariant dest[..i] == src[..i]
      invariant forall j :: i <= j < dest.Length ==> dest[j] == old(dest[j])
    {
      dest[i] := src[i];
      i := i + 1;
    }
    ghost var k := i;
    while i < n
      invariant k <= i <= n
      invariant dest[..k] == src[..k]
      invariant forall j :: k <= j < i ==> dest[j] == NUL
      invariant forall j :: i <= j < dest.Length ==> dest[j] == old(dest[j])
    {
      dest[i] := NUL;
      i := i + 1;
    }
    assert dest[..n] == dest[..k] + dest[k..n];
  }

  /** The bytes of `s` in reverse order. */
  function Reversed(s: seq<byte>): (r: seq<byte>)
    ensures |r| == |s|
    ensures forall i :: 0 <= i < |s| ==> r[i] == s[|s| - 1 - i]
  {
    if s == [] then [] else Reversed(s[1..]) + [s[0]]
  }

  /** Reversing twice gives back the original bytes. */
  lemma ReversedTwice(s: seq<byte>)
    ensures Reversed(Reversed(s)) == s
  {
    assert forall i :: 0 <= i < |s| ==> Reversed(Reversed(s))[i] == s[i];
  }

  /**
   * strrev: the characters before the terminator are reversed in place; the
   * terminator and everything after it stay, so the length is kept.
   */
  method Strrev(s: array<byte>)
    requires NUL in s[..]
    modifies s
    ensures var L := Strlen(old(s[..]));
      s[..L] == Reversed(old(s[..L])) && s[L..] == old(s[L..])
    ensures NUL in s[..] && Strlen(s[..]) == Strlen(old(s[..]))
  {
    ghost var before := s[..];
    var L := Strlen(s[..]);
    SwapEnds(s, L);
    ReversedInPlace(before, s[..], L);
  }

  /** The loop of strrev: swaps the first `L` bytes end for end, moving inwards. */
  method SwapEnds(s: array<byte>, L: nat)
    requires L <= s.Length
    modifies s
    ensures forall i :: 0 <= i < L ==> s[i] == old(s[L - 1 - i])
    ensures forall i :: L <= i < s.Length ==> s[i] == old(s[i])
  {
    var beg, end := 0, L - 1;
    while beg < end
      invariant 0 <= beg && beg + end == L - 1 && beg <= end + 1
      invariant forall i :: 0 <= i < beg ==> s[i] == old(s[L - 1 - i]) && s[L - 1 - i] == old(s[i])
      invariant forall i :: beg <= i <= end ==> s[i] == old(s[i])
      invariant forall i :: L <= i < s.Length ==> s[i] == old(s[i])
    {
      s[beg], s[end] := s[end], s[beg];
      beg, end := beg + 1, end - 1;
    }
  }

  /**
   * The bytes before the terminator mirrored and the rest untouched: the
   * prefix is reversed and strlen is unchanged.
   */
  lemma ReversedInPlace(before: seq<byte>, after: seq<byte>, L: nat)
    requires NUL in before && L == Strlen(before) && |after| == |before|
    requires forall i :: 0 <= i < L ==> after[i] == before[L - 1 - i]
    requires forall i :: L <= i < |after| ==> after[i] == before[i]
    ensures after[..L] == Reversed(before[..L]) && after[L..] == before[L..]
    ensures NUL in after && Strlen(after) == L
  {
    assert after[..L] == Reversed(before[..L]);
    assert after[L] == NUL;
    forall i | 0 <= i < L
      ensures after[i] != NUL
    {
      assert before[L - 1 - i] != NUL;
    }
  }

  /** The lookup table of itoa, the characters "0123456789ABCDEFGHIJKLMNOPQRSTUVWXYZ". */
  const DIGITS: seq<byte> := [48, 49, 50, 51, 52, 53, 54, 55, 56, 57, 65, 66, 67, 68, 69, 70, 71, 72,
                                 73, 74, 75, 76, 77, 78, 79, 80, 81, 82, 83, 84, 85, 86, 87, 88, 89, 90]

  /** The value of one character of the lookup table. */
  function DigitValue(c: byte): int
  {
    if c <= 57 then c as int - 48 else c as int - 55
  }

  /** The digits of `v` in base `radix`, least significant first: what itoa's loop writes. */
  function LsbDigits(v: nat, radix: nat): (ds: seq<byte>)
    requires 2 <= radix <= 36
    ensures v == 0 <==> ds == []
    decreases v
  {
    if v == 0 then [] else [DIGITS[v % radix]] + LsbDigits(v / radix, radix)
  }

  /** The text itoa produces: "0" for zero, otherwise the digits most significant first. */
  function ItoaText(v: nat, radix: nat): (t: seq<byte>)
    requires 2 <= radix <= 36
    ensures |t| >= 1
  {
    if v == 0 then [DIGITS[0]] else Reversed(LsbDigits(v, radix))
  }

  /** The value of a digit string read most significant first. */
  function ValueOf(t: seq<byte>, radix: nat): int
  {
    if t == [] then 0 else ValueOf(t[..|t| - 1], radix) * radix + DigitValue(t[|t| - 1])
  }

  /** The value of a digit string read least significant first. */
  function LsbValue(ds: seq<byte>, radix: nat): int
  {
    if ds == [] then 0 else DigitValue(ds[0]) + radix * LsbValue(ds[1..], radix)
  }

  /** The table holds '0'..'9' then 'A'..'Z'. */
  lemma DigitCode(d: nat)
    requires d < 36
    ensures DIGITS[d] as int == if d < 10 then 48 + d else 55 + d
    ensures DigitValue(DIGITS[d]) == d
    ensures DIGITS[d] != NUL
  {
  }

  lemma DivLess(v: nat, radix: nat)
    requires 2 <= radix && v > 0
    ensures 0 <= v / radix < v && 0 <= v % radix < radix
  {
  }

  lemma DivMod(v: nat, radix: nat)
    requires 2 <= radix
    ensures v == v % radix + radix * (v / radix)
  {
  }

  lemma {:induction false} LsbDigitsValue(v: nat, radix: nat)
    requires 2 <= radix <= 36
    ensures LsbValue(LsbDigits(v, radix), radix) == v
    decreases v
  {
    if v > 0 {
      var q, m := v / radix, v % radix;
      DivLess(v, radix);
      LsbDigitsValue(q, radix);
      var ds := LsbDigits(v, radix);
      assert ds[0] == DIGITS[m] && ds[1..] == LsbDigits(q, radix);
      DigitCode(m);
      DivMod(v, radix);
      assert LsbValue(ds, radix) == m + radix * q;
    }
  }

  lemma {:induction false} ReversedValue(ds: seq<byte>, radix: nat)
    ensures ValueOf(Reversed(ds), radix) == LsbValue(ds, radix)
  {
    if ds != [] {
      var r := Reversed(ds);
      assert r[..|r| - 1] == Reversed(ds[1..]);
      ReversedValue(ds[1..], radix);
    }
  }

  /** The most significant digit of a positive value is not '0'. */
  lemma {:induction false} LeadingDigit(v: nat, radix: nat)
    requires 2 <= radix <= 36 && v > 0
    ensures LsbDigits(v, radix)[|LsbDigits(v, radix)| - 1] != DIGITS[0]
    decreases v
  {
    var q, m := v / radix, v % radix;
    DivLess(v, radix);
    var ds := LsbDigits(v, radix);
    var tail := LsbDigits(q, radix);
    assert ds == [DIGITS[m]] + tail;
    if q > 0 {
      LeadingDigit(q, radix);
      assert ds[|ds| - 1] == tail[|tail| - 1];
    } else {
      DivMod(v, radix);
      assert ds == [DIGITS[m]] && m == v;
      DigitCode(m);
    }
  }

  /**
   * itoa's text reads back as the value, uses only digits below the radix,
   * and has no leading zero.
   */
  lemma ItoaTextMeaning(v: nat, radix: nat)
    requires 2 <= radix <= 36
    ensures ValueOf(ItoaText(v, radix), radix) == v
    ensures forall c :: c in ItoaText(v, radix) ==> c in DIGITS[..radix]
    ensures v > 0 ==> ItoaText(v, radix)[0] != DIGITS[0]
  {
    if v == 0 {
      assert ItoaText(v, radix)[..0] == [];
    } else {
      LsbDigitsValue(v, radix);
      ReversedValue(LsbDigits(v, radix), radix);
      LeadingDigit(v, radix);
      LsbDigitsBelowRadix(v, radix);
    }
  }

  lemma {:induction false} LsbDigitsBelowRadix(v: nat, radix: nat)
    requires 2 <= radix <= 36
    ensures forall c :: c in LsbDigits(v, radix) ==> c in DIGITS[..radix] && c != NUL
    decreases v
  {
    if v > 0 {
      var q, m := v / radix, v % radix;
      DivLess(v, radix);
      LsbDigitsBelowRadix(q, radix);
      assert LsbDigits(v, radix) == [DIGITS[m]] + LsbDigits(q, radix);
      assert DIGITS[m] == DIGITS[..radix][m];
      DigitCode(m);
    }
  }

  /**
   * itoa: writes ItoaText(value, radix) and a terminator into `buf`, by
   * emitting digits least significant first and reversing them with strrev.
   */
  method Itoa(value: nat, buf: array<byte>, radix: nat)
    requires value < 0x1_0000_0000
    requires 2 <= radix <= 36
    requires |ItoaText(value, radix)| < buf.Length
    modifies buf
    ensures buf[..|ItoaText(value, radix)|] == ItoaText(value, radix)
    ensures buf[|ItoaText(value, radix)|] == NUL
    ensures buf[|ItoaText(value, radix)| + 1..] == old(buf[|ItoaText(value, radix)| + 1..])
  {
    if value == 0 {
      buf[0] := DIGITS[0];
      buf[1] := NUL;
      assert buf[..1] == [DIGITS[0]];
      return;
    }
    var i := EmitDigits(value, buf, radix);
    ghost var mid := buf[..];
    Strrev(buf);
    ReversedDigits(mid, buf[..], i, value, radix);
  }

  /** Reversing the emitted digits in place leaves itoa's text, then the NUL, then the untouched rest. */
  lemma ReversedDigits(mid: seq<byte>, after: seq<byte>, i: nat, value: nat, radix: nat)
    requires 2 <= radix <= 36 && value > 0
    requires i < |mid| == |after| && mid[..i] == LsbDigits(value, radix) && mid[i] == NUL
    requires after[..i] == Reversed(mid[..i]) && after[i..] == mid[i..]
    ensures |ItoaText(value, radix)| == i && after[..i] == ItoaText(value, radix)
    ensures after[i] == NUL && after[i + 1..] == mid[i + 1..]
  {
    assert after[i] == after[i..][0];
    assert after[i + 1..] == after[i..][1..];
  }

  /** The loop of itoa: the digits of `value`, least significant first, then a NUL. */
  method EmitDigits(value: nat, buf: array<byte>, radix: nat) returns (i: nat)
    requires 2 <= radix <= 36
    requires |LsbDigits(value, radix)| < buf.Length
    modifies buf
    ensures i == |LsbDigits(value, radix)|
    ensures buf[..i] == LsbDigits(value, radix) && buf[i] == NUL
    ensures NUL in buf[..] && Strlen(buf[..]) == i
    ensures buf[i + 1..] == old(buf[i + 1..])
  {
    ghost var ds := LsbDigits(value, radix);
    ghost var before := buf[..];
    i := 0;
    var newval: nat := value;
    while newval > 0
      invariant 0 <= i <= |ds|
      invariant buf[..i] + LsbDigits(newval, radix) == ds
      invariant forall j :: i <= j < buf.Length ==> buf[j] == before[j]
      decreases newval
    {
      DivLess(newval, radix);
      var q: nat, m: nat := newval / radix, newval % radix;
      assert LsbDigits(newval, radix) == [DIGITS[m]] + LsbDigits(q, radix);
      buf[i] := DIGITS[m];
      assert buf[..i + 1] == buf[..i] + [DIGITS[m]];
      i := i + 1;
      newval := q;
    }
    buf[i] := NUL;
    ItoaTerminated(before, buf[..], ds, radix, value);
  }

  /** After the loop the buffer holds the digits and a NUL, so strlen sees exactly the digits. */
  lemma ItoaTerminated(before: seq<byte>, b: seq<byte>, ds: seq<byte>, radix: nat, value: nat)
    requires 2 <= radix <= 36
    requires ds == LsbDigits(value, radix)
    requires |ds| < |b| == |before| && b[..|ds|] == ds && b[|ds|] == NUL
    requires forall j :: |ds| < j < |b| ==> b[j] == before[j]
    ensures NUL in b && Strlen(b) == |ds|
    ensures b[|ds| + 1..] == before[|ds| + 1..]
  {
    LsbDigitsBelowRadix(value, radix);
    assert forall j :: 0 <= j < |ds| ==> b[j] == ds[j] && ds[j] in ds;
    assert b[|ds| + 1..] == before[|ds| + 1..];
  }
}
