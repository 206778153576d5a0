/** Character and string operations shared by the browser scripts (JavaScript)
    and the admin servers (Python). Strings are sequences of Unicode code points. */
module Strings {
  import opened Wrappers

  /** The two runtimes whose whitespace rules the site relies on. */
  datatype Runtime = JavaScript | Python

  /** Whitespace as `String.prototype.trim` and the regex class `\s` see it
      (JavaScript), or as `str.strip()` sees it (Python). The two sets differ in
      U+FEFF (JavaScript only) and U+001C..U+001F, U+0085 (Python only). */
  predicate IsSpace(c: char, rt: Runtime) {
    var n := c as int;
    (0x09 <= n <= 0x0D) || n == 0x20 || n == 0xA0 || n == 0x1680
    || (0x2000 <= n <= 0x200A) || n == 0x2028 || n == 0x2029 || n == 0x202F
    || n == 0x205F || n == 0x3000
    || (rt == JavaScript && n == 0xFEFF)
    || (rt == Python && ((0x1C <= n <= 0x1F) || n == 0x85))
  }

  /** Every character is whitespace (vacuously true of ""). */
  predicate IsBlank(s: string, rt: Runtime) {
    forall i :: 0 <= i < |s| ==> IsSpace(s[i], rt)
  }

  /** Drops leading whitespace: the result is the suffix that starts at the
      first non-space character. */
  function TrimStart(s: string, rt: Runtime): (r: string)
    ensures |r| <= |s| && r == s[|s| - |r|..]
    decreases |s|
  {
    if |s| > 0 && IsSpace(s[0], rt) then TrimStart(s[1..], rt) else s
  }

  /** What `TrimStart` cuts is whitespace, and what it keeps starts with
      a non-space character. */
  lemma {:induction false} TrimStartCuts(s: string, rt: Runtime)
    ensures forall k :: 0 <= k < |s| - |TrimStart(s, rt)| ==> IsSpace(s[k], rt)
    ensures TrimStart(s, rt) == [] || !IsSpace(TrimStart(s, rt)[0], rt)
    decreases |s|
  {
    if |s| > 0 && IsSpace(s[0], rt) {
      var t := s[1..];
      TrimStartCuts(t, rt);
      assert TrimStart(s, rt) == TrimStart(t, rt);
      forall k | 0 <= k < |s| - |TrimStart(s, rt)| ensures IsSpace(s[k], rt) {
        if k > 0 {
          assert s[k] == t[k - 1];
        }
      }
    }
  }

  /** Drops trailing whitespace: the result is the prefix that ends at the
      last non-space character. */
  function TrimEnd(s: string, rt: Runtime): (r: string)
    ensures |r| <= |s| && r == s[..|r|]
    decreases |s|
  {
    if |s| > 0 && IsSpace(s[|s| - 1], rt) then TrimEnd(s[..|s| - 1], rt) else s
  }

  /** What `TrimEnd` cuts is whitespace, and what it keeps ends with a
      non-space character. */
  lemma {:induction false} TrimEndCuts(s: string, rt: Runtime)
    ensures forall k :: |TrimEnd(s, rt)| <= k < |s| ==> IsSpace(s[k], rt)
    ensures TrimEnd(s, rt) == [] || !IsSpace(TrimEnd(s, rt)[|TrimEnd(s, rt)| - 1], rt)
    decreases |s|
  {
    if |s| > 0 && IsSpace(s[|s| - 1], rt) {
      var t := s[..|s| - 1];
      TrimEndCuts(t, rt);
      assert TrimEnd(s, rt) == TrimEnd(t, rt);
      forall k | |TrimEnd(s, rt)| <= k < |s| ensures IsSpace(s[k], rt) {
        if k < |s| - 1 {
          assert s[k] == t[k];
        }
      }
    }
  }

  /** `s.trim()` in JavaScript, `s.strip()` in Python. */
  function Trim(s: string, rt: Runtime): string {
    TrimEnd(TrimStart(s, rt), rt)
  }

  /** Trimming the end of the suffix `s[i..]` keeps a slice `s[i..j]`: what
      is cut is whitespace and what is kept ends with none. */
  lemma TrimEndOfSuffix(s: string, i: nat, rt: Runtime) returns (j: nat)
    requires i <= |s|
    ensures i <= j <= |s| && TrimEnd(s[i..], rt) == s[i..j]
    ensures forall k :: j <= k < |s| ==> IsSpace(s[k], rt)
    ensures i < j ==> !IsSpace(s[j - 1], rt)
  {
    var t := s[i..];
    var r := TrimEnd(t, rt);
    TrimEndCuts(t, rt);
    j := i + |r|;
    forall k | j <= k < |s| ensures IsSpace(s[k], rt) {
      assert s[k] == t[k - i];
    }
    if i < j {
      assert s[j - 1] == r[|r| - 1];
    }
  }

  /** A trimmed string is the slice `s[i..j]` of its input: only whitespace is
      cut from either end, and none is left at the ends of the result. */
  lemma TrimIsSlice(s: string, rt: Runtime) returns (i: nat, j: nat)
    ensures i <= j <= |s| && Trim(s, rt) == s[i..j]
    ensures forall k :: 0 <= k < i ==> IsSpace(s[k], rt)
    ensures forall k :: j <= k < |s| ==> IsSpace(s[k], rt)
    ensures i < j ==> !IsSpace(s[i], rt) && !IsSpace(s[j - 1], rt)
  {
    var t := TrimStart(s, rt);
    TrimStartCuts(s, rt);
    i := |s| - |t|;
    assert t == s[i..];
    j := TrimEndOfSuffix(s, i, rt);
    if i < j {
      assert s[i] == t[0];
    }
  }

  /** Trimming leaves nothing exactly when the input is all whitespace. */
  lemma TrimEmptyIffBlank(s: string, rt: Runtime)
    ensures Trim(s, rt) == [] <==> IsBlank(s, rt)
  {
    var t := TrimStart(s, rt);
    TrimStartCuts(s, rt);
    TrimEndCuts(t, rt);
    if t != [] {
      assert t[0] == s[|s| - |t|];
    }
  }

  /** Trimming twice is trimming once. */
  lemma TrimIdempotent(s: string, rt: Runtime)
    ensures Trim(Trim(s, rt), rt) == Trim(s, rt)
  {
    var i, j := TrimIsSlice(s, rt);
    var r := Trim(s, rt);
    if r != [] {
      assert r[0] == s[i] && r[|r| - 1] == s[j - 1];
      assert TrimStart(r, rt) == r;
      assert TrimEnd(r, rt) == r;
    }
  }

  /** A string with no whitespace at either end is its own trim. */
  lemma TrimNoOuterSpace(s: string, rt: Runtime)
    requires s == [] || (!IsSpace(s[0], rt) && !IsSpace(s[|s| - 1], rt))
    ensures Trim(s, rt) == s
  {
    assert TrimStart(s, rt) == s;
  }

  /** ASCII upper-case letters lowered; everything else unchanged. */
  function LowerChar(c: char): char {
    if 'A' <= c <= 'Z' then (c as int + 32) as char else c
  }

  /** `toLowerCase()` / `lower()`, restricted to ASCII letters. */
  function Lower(s: string): string {
    seq(|s|, i requires 0 <= i < |s| => LowerChar(s[i]))
  }

  predicate StartsWith(s: string, prefix: string) {
    |prefix| <= |s| && s[..|prefix|] == prefix
  }

  /** `s.includes(sub)`: `sub` occurs somewhere in `s`. */
  predicate Contains(s: string, sub: string)
    decreases |s|
  {
    StartsWith(s, sub) || (|s| > 0 && Contains(s[1..], sub))
  }

  /** `sub` appears at some position of `s`. */
  predicate OccursAt(s: string, sub: string, k: nat) {
    k + |sub| <= |s| && s[k..k + |sub|] == sub
  }

  /** The scan of `Contains` finds `sub` exactly when it appears at some
      position of `s`. */
  lemma {:induction false} ContainsIff(s: string, sub: string)
    ensures Contains(s, sub) <==> exists k: nat :: OccursAt(s, sub, k)
    decreases |s|
  {
    if StartsWith(s, sub) {
      assert OccursAt(s, sub, 0);
    } else if |s| > 0 {
      ContainsIff(s[1..], sub);
      if Contains(s[1..], sub) {
        var k: nat :| OccursAt(s[1..], sub, k);
        assert s[k + 1..k + 1 + |sub|] == s[1..][k..k + |sub|];
        assert OccursAt(s, sub, k + 1);
      } else {
        forall k: nat | OccursAt(s, sub, k) ensures false {
          if k > 0 {
            assert s[1..][k - 1..k - 1 + |sub|] == s[k..k + |sub|];
            assert OccursAt(s[1..], sub, k - 1);
          }
        }
      }
    } else {
      assert |sub| > 0;
    }
  }

  /** Index of the first occurrence of `c`. */
  function IndexOf(s: string, c: char): (i: nat)
    requires c in s
    ensures i < |s| && s[i] == c && c !in s[..i]
  {
    if s[0] == c then 0 else 1 + IndexOf(s[1..], c)
  }

  /** Index of the last occurrence of `c`. */
  function LastIndexOf(s: string, c: char): (i: nat)
    requires c in s
    ensures i < |s| && s[i] == c && c !in s[i + 1..]
  {
    if s[|s| - 1] == c then |s| - 1 else LastIndexOf(s[..|s| - 1], c)
  }

  /** Python's `s.split(sep)`: the pieces between occurrences of `sep`;
      there is always at least one piece (`"".split(",") == [""]`). */
  function Split(s: string, sep: char): (r: seq<string>)
    ensures |r| > 0
    ensures forall k :: 0 <= k < |r| ==> sep !in r[k]
    decreases |s|
  {
    if sep !in s then [s]
    else
      var i := IndexOf(s, sep);
      [s[..i]] + Split(s[i + 1..], sep)
  }

  /** `sep.join(pieces)`. */
  function Join(pieces: seq<string>, sep: char): string
    requires |pieces| > 0
  {
    if |pieces| == 1 then pieces[0] else pieces[0] + [sep] + Join(pieces[1..], sep)
  }

  /** Joining the pieces of a split with the same separator gives back the
      string: splitting loses nothing. */
  lemma {:induction false} JoinSplit(s: string, sep: char)
    ensures Join(Split(s, sep), sep) == s
    decreases |s|
  {
    if sep in s {
      var i := IndexOf(s, sep);
      var rest := s[i + 1..];
      JoinSplit(rest, sep);
      assert Split(s, sep)[1..] == Split(rest, sep);
      assert s == s[..i] + [sep] + rest;
    }
  }

  /** Splitting a join of separator-free pieces gives back the pieces. */
  lemma {:induction false} SplitJoin(pieces: seq<string>, sep: char)
    requires |pieces| > 0
    requires forall k :: 0 <= k < |pieces| ==> sep !in pieces[k]
    ensures Split(Join(pieces, sep), sep) == pieces
    decreases |pieces|
  {
    if |pieces| > 1 {
      SplitJoin(pieces[1..], sep);
      SplitAtFirst(pieces[0], sep, Join(pieces[1..], sep));
      assert pieces == [pieces[0]] + pieces[1..];
    }
  }

  /** A split cuts a separator-free first piece off at the separator that
      follows it. */
  lemma SplitAtFirst(p: string, sep: char, rest: string)
    requires sep !in p
    ensures Split(p + [sep] + rest, sep) == [p] + Split(rest, sep)
  {
    var s := p + [sep] + rest;
    assert s[|p|] == sep;
    assert s[..|p|] == p;
    assert IndexOf(s, sep) == |p|;
    assert s[|p| + 1..] == rest;
  }

  predicate IsDigit(c: char) {
    '0' <= c <= '9'
  }

  function DigitChar(d: nat): (c: char)
    requires d < 10
    ensures IsDigit(c)
  {
    ('0' as int + d) as char
  }

  /** Decimal text of a natural number, as `str(n)` and `String(n)` print it. */
  function NatToString(n: nat): (r: string)
    ensures |r| > 0 && IsDigit(r[0])
    ensures forall k :: 0 <= k < |r| ==> IsDigit(r[k])
    decreases n
  {
    if n < 10 then [DigitChar(n)] else NatToString(n / 10) + [DigitChar(n % 10)]
  }

  /** Decimal text of an integer, with a leading '-' when negative. */
  function IntToString(n: int): string {
    if n < 0 then "-" + NatToString(-n) else NatToString(n)
  }

  /** A body that Python's `int()` accepts in base 10: ASCII digits, where a
      single '_' may stand between two digits. */
  predicate WellFormedDigits(s: string) {
    && |s| > 0 && IsDigit(s[0]) && IsDigit(s[|s| - 1])
    && forall i :: 0 <= i < |s| ==> IsDigit(s[i]) || (s[i] == '_' && i + 1 < |s| && IsDigit(s[i + 1]))
  }

  /** The value of a digit string, underscores ignored. */
  function DigitsValue(s: string): nat {
    if s == [] then 0
    else if IsDigit(s[|s| - 1]) then DigitsValue(s[..|s| - 1]) * 10 + (s[|s| - 1] as int - '0' as int)
    else DigitsValue(s[..|s| - 1])
  }

  /** Python's `int(s)` on a string that has already been stripped: an
      optional sign and a well-formed digit body, or failure (None) where
      Python raises ValueError. */
  function ParseInt(s: string): Option<int> {
    if |s| > 0 && (s[0] == '+' || s[0] == '-') then
      if WellFormedDigits(s[1..]) then
        var v: int := DigitsValue(s[1..]);
        Some(if s[0] == '-' then -v else v)
      else None
    else if WellFormedDigits(s) then Some(DigitsValue(s))
    else None
  }

  lemma {:induction false} DigitsValueOfNatToString(n: nat)
    ensures DigitsValue(NatToString(n)) == n
    decreases n
  {
    if n >= 10 {
      var p := NatToString(n / 10);
      DigitsValueOfNatToString(n / 10);
      assert (p + [DigitChar(n % 10)])[..|p|] == p;
    }
  }

  /** Reading back the decimal text of any integer gives the integer. */
  lemma ParseIntToString(n: int)
    ensures ParseInt(IntToString(n)) == Some(n)
  {
    var m: nat := if n < 0 then -n else n;
    DigitsValueOfNatToString(m);
    var d := NatToString(m);
    if n < 0 {
      assert IntToString(n)[1..] == d;
    }
  }

  /** Distinct numbers have distinct decimal texts. */
  lemma NatToStringInjective(a: nat, b: nat)
    ensures NatToString(a) == NatToString(b) ==> a == b
  {
    DigitsValueOfNatToString(a);
    DigitsValueOfNatToString(b);
  }
}
