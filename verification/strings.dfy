/** The JavaScript string built-ins the request handlers lean on: `trim`,
    `split`, `replace` with a string pattern, `padStart`, `toLowerCase`,
    `Number.prototype.toString` on integers and the global `parseInt`. */
module Strings {
  import opened Wrappers

  /** ECMAScript WhiteSpace and LineTerminator code points: what `trim`
      removes and what `parseInt` skips before the number. */
  predicate IsSpace(c: char) {
    || c == ' ' || c == '\t' || c == '\n' || c == '\r' || c == '\U{B}' || c == '\U{C}'
    || c == '\U{A0}' || c == '\U{1680}' || ('\U{2000}' <= c <= '\U{200A}')
    || c == '\U{2028}' || c == '\U{2029}' || c == '\U{202F}' || c == '\U{205F}'
    || c == '\U{3000}' || c == '\U{FEFF}'
  }

  predicate AllSpace(s: string) {
    forall i :: 0 <= i < |s| ==> IsSpace(s[i])
  }

  // ---------------------------------------------------------------- trim

  /** `s.trimStart()`: the suffix of `s` left after its leading blanks. */
  function TrimStart(s: string): (r: string)
    ensures |r| <= |s| && r == s[|s| - |r|..]
    ensures AllSpace(s[..|s| - |r|])
    ensures r == [] || !IsSpace(r[0])
  {
    if |s| > 0 && IsSpace(s[0]) then
      var r := TrimStart(s[1..]);
      assert s[..|s| - |r|] == [s[0]] + s[1..][..|s| - 1 - |r|];
      r
    else s
  }

  /** `s.trimEnd()`: the prefix of `s` left after its trailing blanks. */
  function TrimEnd(s: string): (r: string)
    ensures |r| <= |s| && r == s[..|r|]
    ensures AllSpace(s[|r|..])
    ensures r == [] || !IsSpace(r[|r| - 1])
  {
    if |s| > 0 && IsSpace(s[|s| - 1]) then
      var r := TrimEnd(s[..|s| - 1]);
      assert s[|r|..] == s[..|s| - 1][|r|..] + [s[|s| - 1]];
      r
    else s
  }

  /** `s.trim()`: the middle slice of `s` between a blank prefix and a blank
      suffix, with no blank at either end; empty exactly when `s` is all blank. */
  function Trim(s: string): (r: string)
    ensures exists i, j :: 0 <= i <= j <= |s| && r == s[i..j] && AllSpace(s[..i]) && AllSpace(s[j..])
    ensures r == [] || (!IsSpace(r[0]) && !IsSpace(r[|r| - 1]))
    ensures r == [] <==> AllSpace(s)
  {
    TrimSlices(s);
    TrimEnd(TrimStart(s))
  }

  /** Trimming only removes characters: whatever `s` lacks, its trim lacks. */
  lemma TrimKeepsAbsent(s: string, c: char)
    requires c !in s
    ensures c !in Trim(s)
  {
    var r := Trim(s);
    var i, j :| 0 <= i <= j <= |s| && r == s[i..j] && AllSpace(s[..i]) && AllSpace(s[j..]);
    SliceKeepsAbsent(s, i, j, c);
  }

  lemma SliceKeepsAbsent(s: string, i: nat, j: nat, c: char)
    requires i <= j <= |s| && c !in s
    ensures c !in s[i..j]
  {
    forall k | 0 <= k < j - i ensures s[i..j][k] != c {
      assert s[i..j][k] == s[i + k];
    }
  }

  lemma TrimSlices(s: string)
    ensures var r := TrimEnd(TrimStart(s));
      && (exists i, j :: 0 <= i <= j <= |s| && r == s[i..j] && AllSpace(s[..i]) && AllSpace(s[j..]))
      && (r == [] || (!IsSpace(r[0]) && !IsSpace(r[|r| - 1])))
      && (r == [] <==> AllSpace(s))
  {
    var t := TrimStart(s);
    var r := TrimEnd(t);
    var i := |s| - |t|;
    var j := i + |r|;
    assert r == s[i..j];
    assert s[j..] == t[|r|..];
    if r == [] {
      assert s[..i] == s;
    } else {
      assert r[0] == t[0];
      assert !AllSpace(s) by { assert s[i] == r[0]; }
    }
  }

  // ---------------------------------------------------------------- split

  /** `s.split(sep)` for a one-character separator: the maximal
      separator-free pieces, always at least one (`"".split(",")` is `[""]`). */
  function Split(s: string, sep: char): (parts: seq<string>)
    ensures |parts| >= 1
    ensures forall p :: p in parts ==> sep !in p
  {
    if |s| == 0 then [[]]
    else
      var rest := Split(s[1..], sep);
      if s[0] == sep then [[]] + rest else [[s[0]] + rest[0]] + rest[1..]
  }

  /** The first piece of a split is the longest separator-free prefix of
      the string: what follows it is the end or a separator. */
  lemma {:induction false} SplitHeadPrefix(s: string, sep: char)
    ensures |Split(s, sep)[0]| <= |s| && Split(s, sep)[0] == s[..|Split(s, sep)[0]|]
    ensures |Split(s, sep)[0]| == |s| || s[|Split(s, sep)[0]|] == sep
  {
    if |s| > 0 {
      SplitHeadPrefix(s[1..], sep);
    }
  }

  /** `parts.join(sep)`: the reference that `Split` inverts. */
  function Join(parts: seq<string>, sep: char): string
    requires |parts| >= 1
  {
    if |parts| == 1 then parts[0] else parts[0] + [sep] + Join(parts[1..], sep)
  }

  /** Joining the pieces back gives the original string. */
  lemma {:induction false} JoinSplit(s: string, sep: char)
    ensures Join(Split(s, sep), sep) == s
  {
    if |s| > 0 {
      var rest := Split(s[1..], sep);
      JoinSplit(s[1..], sep);
      if s[0] == sep {
        assert ([[]] + rest)[1..] == rest;
      } else {
        var parts := [[s[0]] + rest[0]] + rest[1..];
        if |rest| > 1 {
          assert parts[1..] == rest[1..];
          assert Join(rest, sep) == rest[0] + [sep] + Join(rest[1..], sep);
        }
      }
    }
  }

  lemma {:induction false} SplitFree(p: string, sep: char)
    requires sep !in p
    ensures Split(p, sep) == [p]
  {
    if |p| > 0 {
      SplitFree(p[1..], sep);
      assert [p[0]] + p[1..] == p;
    }
  }

  lemma {:induction false} SplitCons(p: string, s: string, sep: char)
    requires sep !in p
    ensures Split(p + [sep] + s, sep) == [p] + Split(s, sep)
  {
    var w := p + [sep] + s;
    if |p| == 0 {
      assert w[1..] == s;
    } else {
      assert w[1..] == p[1..] + [sep] + s;
      SplitCons(p[1..], s, sep);
      assert [p[0]] + p[1..] == p;
    }
  }

  /** Splitting a join of separator-free pieces gives the pieces back. */
  lemma {:induction false} SplitJoin(parts: seq<string>, sep: char)
    requires |parts| >= 1
    requires forall p :: p in parts ==> sep !in p
    ensures Split(Join(parts, sep), sep) == parts
  {
    if |parts| == 1 {
      SplitFree(parts[0], sep);
    } else {
      assert parts[0] in parts;
      assert forall p :: p in parts[1..] ==> p in parts;
      SplitJoin(parts[1..], sep);
      SplitCons(parts[0], Join(parts[1..], sep), sep);
      assert [parts[0]] + parts[1..] == parts;
    }
  }

  // ---------------------------------------------------------------- replace

  predicate OccursAt(s: string, pat: string, k: nat) {
    k + |pat| <= |s| && s[k..k + |pat|] == pat
  }

  /** `k` is where `pat` first occurs in `s`. */
  predicate FirstOccurrence(s: string, pat: string, k: nat) {
    OccursAt(s, pat, k) && forall m: nat :: m < k ==> !OccursAt(s, pat, m)
  }

  function IndexOfFrom(s: string, pat: string, from: nat): (r: Option<nat>)
    ensures r.Some? ==> from <= r.value && OccursAt(s, pat, r.value)
    ensures r.Some? ==> forall m: nat :: from <= m < r.value ==> !OccursAt(s, pat, m)
    ensures r.None? ==> forall m: nat :: from <= m ==> !OccursAt(s, pat, m)
    decreases |s| - from
  {
    if from + |pat| > |s| then None
    else if s[from..from + |pat|] == pat then Some(from)
    else IndexOfFrom(s, pat, from + 1)
  }

  /** `s.replace(pat, rep)` with a string pattern: only the FIRST occurrence
      is replaced; without an occurrence the string is returned unchanged. */
  function ReplaceFirst(s: string, pat: string, rep: string): (r: string)
    ensures (forall m: nat :: !OccursAt(s, pat, m)) ==> r == s
    ensures forall k: nat :: FirstOccurrence(s, pat, k) ==> r == s[..k] + rep + s[k + |pat|..]
  {
    var found := IndexOfFrom(s, pat, 0);
    if found.None? then s
    else
      var i := found.value;
      assert forall k: nat :: FirstOccurrence(s, pat, k) ==> k == i by {
        forall k: nat | FirstOccurrence(s, pat, k) ensures k == i {
          assert !(k < i);
          assert !(i < k);
        }
      }
      s[..i] + rep + s[i + |pat|..]
  }

  /** Removing a prefix pattern: `(pat + t).replace(pat, "")` is `t`. */
  lemma ReplaceLeadingPattern(pat: string, t: string)
    ensures ReplaceFirst(pat + t, pat, "") == t
  {
    var s := pat + t;
    assert OccursAt(s, pat, 0);
    assert FirstOccurrence(s, pat, 0);
    assert s[|pat|..] == t;
  }

  // ---------------------------------------------------------------- padStart

  function Repeat(c: char, n: nat): (r: string)
    ensures |r| == n
    ensures forall i :: 0 <= i < n ==> r[i] == c
  {
    if n == 0 then [] else [c] + Repeat(c, n - 1)
  }

  /** `s.padStart(width, fill)`: fill characters in front up to `width`;
      a string already that long is returned whole, never truncated. */
  function PadStart(s: string, width: nat, fill: char): (r: string)
    ensures |r| == if |s| >= width then |s| else width
    ensures r[..|r| - |s|] + s == r
    ensures forall i :: 0 <= i < |r| - |s| ==> r[i] == fill
  {
    if |s| >= width then s else Repeat(fill, width - |s|) + s
  }

  // ---------------------------------------------------------------- toLowerCase

  function LowerChar(c: char): char {
    if 'A' <= c <= 'Z' then (c as int + 32) as char else c
  }

  /** `s.toLowerCase()` on the ASCII letters, the only ones whose lower case
      can equal a letter of "true". */
  function Lower(s: string): (r: string)
    ensures |r| == |s|
    ensures forall i :: 0 <= i < |s| ==> r[i] == LowerChar(s[i])
  {
    seq(|s|, i requires 0 <= i < |s| => LowerChar(s[i]))
  }

  // ---------------------------------------------------------------- numbers

  predicate IsDecimalDigit(c: char) {
    '0' <= c <= '9'
  }

  /** Digit value of an ASCII alphanumeric in radix 36, and 36 for anything
      else, so `DigitValue(c) < radix` says `c` is a digit of `radix`. */
  function DigitValue(c: char): nat {
    if '0' <= c <= '9' then c as int - '0' as int
    else if 'a' <= c <= 'z' then c as int - 'a' as int + 10
    else if 'A' <= c <= 'Z' then c as int - 'A' as int + 10
    else 36
  }

  /** Value of a digit string read most significant digit first. */
  function Horner(t: string, radix: nat): int {
    if |t| == 0 then 0 else Horner(t[..|t| - 1], radix) * radix + DigitValue(t[|t| - 1])
  }

  function DigitChar(d: nat): (c: char)
    requires d < 10
    ensures IsDecimalDigit(c) && DigitValue(c) == d
  {
    (d + '0' as int) as char
  }

  /** `n.toString()` for a non-negative integer: the shortest decimal
      numeral, which reads back as `n`. */
  function Decimal(n: nat): (r: string)
    ensures |r| >= 1
    ensures forall i :: 0 <= i < |r| ==> IsDecimalDigit(r[i])
    ensures |r| > 1 ==> r[0] != '0'
    ensures Horner(r, 10) == n
  {
    if n < 10 then
      var r := [DigitChar(n)];
      assert r[..0] == [];
      r
    else
      var p := Decimal(n / 10);
      var r := p + [DigitChar(n % 10)];
      assert r[..|r| - 1] == p;
      r
  }

  /** `n.toString()` for an integer of either sign. */
  function IntToString(n: int): string {
    if n < 0 then "-" + Decimal(-n) else Decimal(n)
  }

  /** Length of the run of `radix` digits at the start of `w`. */
  function DigitRun(w: string, radix: nat): (k: nat)
    ensures k <= |w|
    ensures forall i :: 0 <= i < k ==> DigitValue(w[i]) < radix
    ensures k == |w| || DigitValue(w[k]) >= radix
  {
    if |w| > 0 && DigitValue(w[0]) < radix then 1 + DigitRun(w[1..], radix) else 0
  }

  /** The global `parseInt(s)` with no radix argument: skip leading blanks,
      take an optional sign, read hexadecimal after `0x`/`0X` and decimal
      otherwise, stop at the first non-digit. `None` is `NaN` (no digit). */
  function ParseInt(s: string): Option<int> {
    ParseSigned(TrimStart(s))
  }

  function ParseSigned(t: string): Option<int> {
    if |t| > 0 && t[0] == '-' then
      match ParseUnsigned(t[1..])
      case None => None
      case Some(v) => Some(-v)
    else if |t| > 0 && t[0] == '+' then ParseUnsigned(t[1..])
    else ParseUnsigned(t)
  }

  function ParseUnsigned(u: string): Option<int> {
    if |u| >= 2 && u[0] == '0' && (u[1] == 'x' || u[1] == 'X') then ParseRadix(u[2..], 16)
    else ParseRadix(u, 10)
  }

  function ParseRadix(w: string, radix: nat): Option<int> {
    var k := DigitRun(w, radix);
    if k == 0 then None else Some(Horner(w[..k], radix))
  }

  lemma {:induction false} HornerZeros(z: string)
    requires forall i :: 0 <= i < |z| ==> z[i] == '0'
    ensures Horner(z, 10) == 0
  {
    if |z| > 0 {
      HornerZeros(z[..|z| - 1]);
    }
  }

  lemma {:induction false} HornerLeadingZeros(z: string, d: string)
    requires forall i :: 0 <= i < |z| ==> z[i] == '0'
    ensures Horner(z + d, 10) == Horner(d, 10)
  {
    if |d| == 0 {
      assert z + d == z;
      HornerZeros(z);
    } else {
      var d' := d[..|d| - 1];
      assert (z + d)[..|z + d| - 1] == z + d';
      HornerLeadingZeros(z, d');
    }
  }

  /** A string of decimal digits only reads back, under `parseInt`, as its
      Horner value: no blank is skipped, no sign or `0x` prefix is seen. */
  lemma ParseDigits(t: string)
    requires |t| >= 1
    requires forall i :: 0 <= i < |t| ==> IsDecimalDigit(t[i])
    ensures ParseInt(t) == Some(Horner(t, 10))
  {
    assert !IsSpace(t[0]);
    assert TrimStart(t) == t;
    assert ParseSigned(t) == ParseUnsigned(t);
    assert !(|t| >= 2 && (t[1] == 'x' || t[1] == 'X'));
    assert ParseUnsigned(t) == ParseRadix(t, 10);
    assert forall i :: 0 <= i < |t| ==> DigitValue(t[i]) < 10;
    DigitRunAll(t, 10);
    assert t[..|t|] == t;
  }

  lemma {:induction false} DigitRunAll(w: string, radix: nat)
    requires forall i :: 0 <= i < |w| ==> DigitValue(w[i]) < radix
    ensures DigitRun(w, radix) == |w|
  {
    if |w| > 0 {
      DigitRunAll(w[1..], radix);
    }
  }

  /** A zero-padded decimal numeral parses back to its number: the
      round trip `parseInt(String(n).padStart(width, "0")) == n`. */
  lemma ParsePaddedDecimal(n: nat, width: nat)
    ensures ParseInt(PadStart(Decimal(n), width, '0')) == Some(n)
  {
    var d := Decimal(n);
    var t := PadStart(d, width, '0');
    PaddedDigits(d, width);
    ParseDigits(t);
    HornerLeadingZeros(t[..|t| - |d|], d);
  }

  /** Zero-padding a digit string gives a digit string. */
  lemma PaddedDigits(d: string, width: nat)
    requires forall i :: 0 <= i < |d| ==> IsDecimalDigit(d[i])
    ensures forall i :: 0 <= i < |PadStart(d, width, '0')| ==> IsDecimalDigit(PadStart(d, width, '0')[i])
  {
    var t := PadStart(d, width, '0');
    var z := t[..|t| - |d|];
    forall i | 0 <= i < |t| ensures IsDecimalDigit(t[i]) {
      if i >= |z| {
        assert t[i] == (z + d)[i] == d[i - |z|];
      }
    }
  }
}
