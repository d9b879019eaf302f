/** Strings as the program sees them: Unicode scalars addressed by UTF-8 byte offsets, and
    decimal numerals. */
module Text {
  datatype Option<+T> = None | Some(value: T)

  datatype Result<+T> = Ok(value: T) | Err

  // ----- UTF-8 byte offsets -----

  function Utf8Len(c: char): (n: nat)
    ensures 1 <= n <= 4
  {
    if c as int < 0x80 then 1 else if c as int < 0x800 then 2 else if c as int < 0x10000 then 3 else 4
  }

  /** The bytes spell the scalar `u` (RFC 3629, section 3), in the shortest form or in a longer one. */
  predicate Spells(bs: seq<nat>, u: nat) {
    && (forall i :: 1 <= i < |bs| ==> 0x80 <= bs[i] < 0xC0)
    && match |bs|
       case 1 => bs[0] < 0x80 && u == bs[0]
       case 2 => 0xC0 <= bs[0] < 0xE0 && u == (bs[0] - 0xC0) * 64 + (bs[1] - 0x80)
       case 3 => 0xE0 <= bs[0] < 0xF0 && u == ((bs[0] - 0xE0) * 64 + (bs[1] - 0x80)) * 64 + (bs[2] - 0x80)
       case 4 =>
         0xF0 <= bs[0] < 0xF8 &&
         u == (((bs[0] - 0xF0) * 64 + (bs[1] - 0x80)) * 64 + (bs[2] - 0x80)) * 64 + (bs[3] - 0x80)
       case _ => false
  }

  /** A scalar is as long as its shortest form. */
  lemma Utf8LenShortest(c: char)
    ensures exists bs :: Spells(bs, c as int) && |bs| == Utf8Len(c)
    ensures forall bs :: Spells(bs, c as int) ==> |bs| >= Utf8Len(c)
  {
    var u := c as int;
    var a, b, d := u / 64, u / 64 / 64, u / 64 / 64 / 64;
    var form := match Utf8Len(c)
      case 1 => [u]
      case 2 => [0xC0 + a, 0x80 + u % 64]
      case 3 => [0xE0 + b, 0x80 + a % 64, 0x80 + u % 64]
      case _ => [0xF0 + d, 0x80 + b % 64, 0x80 + a % 64, 0x80 + u % 64];
    assert Spells(form, u);
  }

  function ByteLen(s: string): nat {
    if s == [] then 0 else ByteLen(s[..|s| - 1]) + Utf8Len(s[|s| - 1])
  }

  lemma {:induction false} ByteLenConcat(a: string, b: string)
    ensures ByteLen(a + b) == ByteLen(a) + ByteLen(b)
  {
    if b == [] {
      assert a + b == a;
    } else {
      var n := |b| - 1;
      assert (a + b)[..|a + b| - 1] == a + b[..n];
      ByteLenConcat(a, b[..n]);
    }
  }

  lemma PrefixBytes(s: string, i: nat, j: nat)
    requires i <= j <= |s|
    ensures ByteLen(s[..i]) <= ByteLen(s[..j])
    ensures i < j ==> ByteLen(s[..i]) < ByteLen(s[..j])
  {
    if i < j {
      assert s[..j] == s[..i] + s[i..j];
      ByteLenConcat(s[..i], s[i..j]);
    }
  }

  /** The character index whose byte offset is `b`, if `b` is a character boundary of `s`. */
  function CharIndex(s: string, b: nat): (r: Option<nat>)
    ensures r.Some? ==> r.value <= |s| && ByteLen(s[..r.value]) == b
  {
    if ByteLen(s) == b then assert s[..|s|] == s; Some(|s|)
    else if s == [] then None
    else
      var r := CharIndex(s[..|s| - 1], b);
      assert r.Some? ==> s[..|s| - 1][..r.value] == s[..r.value];
      r
  }

  lemma {:induction false} CharIndexOfPrefix(s: string, k: nat)
    requires k <= |s|
    ensures CharIndex(s, ByteLen(s[..k])) == Some(k)
  {
    if k == |s| {
      assert s[..k] == s;
    } else {
      PrefixBytes(s, k, |s|);
      assert s[..|s|] == s;
      CharIndexOfPrefix(s[..|s| - 1], k);
      assert s[..|s| - 1][..k] == s[..k];
    }
  }

  /** `String::replace_range` on byte offsets; `None` stands for the panic on a reversed range or
      on an offset inside a character. */
  function ReplaceRange(s: string, from: nat, to: nat, with: string): Option<string> {
    var i, j := CharIndex(s, from), CharIndex(s, to);
    if from <= to && i.Some? && j.Some? then
      assert i.value <= j.value by { if j.value < i.value { PrefixBytes(s, j.value, i.value); } }
      Some(s[..i.value] + with + s[j.value..])
    else None
  }

  lemma ReplaceRangeAt(s: string, i: nat, j: nat, with: string)
    requires i <= j <= |s|
    ensures ReplaceRange(s, ByteLen(s[..i]), ByteLen(s[..j]), with) == Some(s[..i] + with + s[j..])
  {
    PrefixBytes(s, i, j);
    CharIndexOfPrefix(s, i);
    CharIndexOfPrefix(s, j);
  }

  /** It panics unless both offsets are boundaries, in order. */
  lemma ReplaceRangeDomain(s: string, from: nat, to: nat, with: string)
    ensures ReplaceRange(s, from, to, with).Some? <==>
            exists i, j :: 0 <= i <= j <= |s| && ByteLen(s[..i]) == from && ByteLen(s[..j]) == to
  {
    if ReplaceRange(s, from, to, with).Some? {
      var i, j := CharIndex(s, from).value, CharIndex(s, to).value;
      if j < i {
        PrefixBytes(s, j, i);
      }
    } else if exists i, j :: 0 <= i <= j <= |s| && ByteLen(s[..i]) == from && ByteLen(s[..j]) == to {
      var i, j :| 0 <= i <= j <= |s| && ByteLen(s[..i]) == from && ByteLen(s[..j]) == to;
      ReplaceRangeAt(s, i, j, with);
    }
  }

  /** Unicode `White_Space`, the class that `str::trim` strips. */
  predicate IsWhitespace(c: char) {
    var u := c as int;
    || 0x09 <= u <= 0x0D || u == 0x20 || u == 0x85 || u == 0xA0 || u == 0x1680
    || 0x2000 <= u <= 0x200A || u == 0x2028 || u == 0x2029 || u == 0x202F || u == 0x205F || u == 0x3000
  }

  function TrimStart(s: string): string {
    if s != "" && IsWhitespace(s[0]) then TrimStart(s[1..]) else s
  }

  function TrimEnd(s: string): string {
    if s != "" && IsWhitespace(s[|s| - 1]) then TrimEnd(s[..|s| - 1]) else s
  }

  function Trim(s: string): string { TrimEnd(TrimStart(s)) }

  lemma {:induction false} TrimStartExact(s: string) returns (k: nat)
    ensures k <= |s| && TrimStart(s) == s[k..] && forall i :: 0 <= i < k ==> IsWhitespace(s[i])
    ensures k < |s| ==> !IsWhitespace(s[k])
  {
    k := 0;
    if s != "" && IsWhitespace(s[0]) {
      k := TrimStartExact(s[1..]);
      k := k + 1;
      assert forall i :: 0 < i < k ==> s[i] == s[1..][i - 1];
    }
  }

  lemma {:induction false} TrimEndExact(s: string) returns (k: nat)
    ensures k <= |s| && TrimEnd(s) == s[..k] && forall i :: k <= i < |s| ==> IsWhitespace(s[i])
    ensures k > 0 ==> !IsWhitespace(s[k - 1])
  {
    k := |s|;
    if s != "" && IsWhitespace(s[|s| - 1]) {
      k := TrimEndExact(s[..|s| - 1]);
      assert s[..|s| - 1][..k] == s[..k];
    }
  }

  /** Trimming takes white space off both ends, all of it and nothing else. */
  lemma TrimExact(s: string)
    ensures exists i, j :: 0 <= i <= j <= |s| && Trim(s) == s[i..j] &&
              forall k :: 0 <= k < |s| && !(i <= k < j) ==> IsWhitespace(s[k])
    ensures Trim(s) != "" ==> !IsWhitespace(Trim(s)[0]) && !IsWhitespace(Trim(s)[|Trim(s)| - 1])
  {
    var i := TrimStartExact(s);
    var n := TrimEndExact(s[i..]);
    assert s[i..][..n] == s[i..i + n];
    assert forall k :: i <= k < |s| ==> s[k] == s[i..][k - i];
  }

  /** `str::contains`. */
  predicate Contains(s: string, part: string) {
    part <= s || (s != "" && Contains(s[1..], part))
  }

  lemma {:induction false} ContainsAt(s: string, part: string)
    ensures Contains(s, part) <==> exists i :: 0 <= i <= |s| && part <= s[i..]
  {
    if part <= s {
      assert s[0..] == s;
    } else if s != "" {
      ContainsAt(s[1..], part);
      assert forall i :: 0 <= i < |s| ==> s[1..][i..] == s[i + 1..];
      forall i | 0 <= i <= |s| && part <= s[i..] ensures part <= s[1..][i - 1..] {
        assert s[0..] == s;
      }
    }
  }

  predicate IsBlank(s: string) { forall i :: 0 <= i < |s| ==> IsWhitespace(s[i]) }

  /** Blank text is what trimming leaves nothing of. */
  lemma BlankIsTrimmed(s: string)
    ensures IsBlank(s) <==> Trim(s) == ""
  {
    var i := TrimStartExact(s);
    var n := TrimEndExact(s[i..]);
    assert forall k :: i <= k < |s| ==> s[k] == s[i..][k - i];
  }

  /** Texts are told apart at the first place where `c` stands. */
  lemma SplitAt(c: char, a: string, p: string, b: string, q: string)
    requires c !in a && c !in b && a + [c] + p == b + [c] + q
    ensures a == b && p == q
  {
    var s, t := a + [c] + p, b + [c] + q;
    assert s[|a|] == c && t[|b|] == c;
    assert s[..|a|] == a && t[..|b|] == b;
    assert s[|a| + 1..] == p && t[|b| + 1..] == q;
  }

  lemma DecimalPlain(n: nat, c: char)
    requires !IsDigit(c)
    ensures c !in Decimal(n)
  {
    var d := Decimal(n);
    assert forall i :: 0 <= i < |d| ==> IsDigit(d[i]);
  }

  predicate NoColon(s: string) { ':' !in s }

  lemma SplitAtColon(a: string, p: string, b: string, q: string)
    requires NoColon(a) && NoColon(b)
    ensures a + ":" + p != b
    ensures a + ":" + p == b + ":" + q ==> a == b && p == q
  {
    var s, t := a + ":" + p, b + ":" + q;
    assert s[|a|] == ':' && t[|b|] == ':';
    if s == t {
      assert s[..|a|] == a && t[..|b|] == b;
      assert s[|a| + 1..] == p && t[|b| + 1..] == q;
    }
  }

  /** The first place of `c`, or the end. */
  function Find(s: string, c: char): (n: nat)
    ensures n <= |s| && c !in s[..n] && (n < |s| ==> s[n] == c)
  {
    if s == "" || s[0] == c then 0
    else
      var n := 1 + Find(s[1..], c);
      assert s[..n] == [s[0]] + s[1..][..n - 1];
      n
  }

  lemma {:induction false} FindAt(c: char, a: string, rest: string)
    requires c !in a
    ensures Find(a + [c] + rest, c) == |a| && Find(a, c) == |a|
  {
    var s := a + [c] + rest;
    if a == "" {
      assert s[0] == c;
    } else {
      assert s[0] == a[0] && s[1..] == a[1..] + [c] + rest;
      FindAt(c, a[1..], rest);
    }
  }

  lemma CutAt(c: char, a: string, rest: string)
    ensures var s := a + [c] + rest; s[..|a|] == a && s[|a| + 1..] == rest
  {
  }

  /** The first `n` characters, or all if there are fewer. */
  function FirstChars(s: string, n: nat): (t: string)
    ensures t <= s && |t| == (if |s| <= n then |s| else n)
  {
    if |s| <= n then s else s[..n]
  }

  // ----- Decimal numerals -----

  function Digit(d: nat): char
    requires d < 10
  {
    (48 + d) as char
  }

  predicate IsDigit(c: char) { '0' <= c <= '9' }

  predicate AllDigits(s: string) { forall i :: 0 <= i < |s| ==> IsDigit(s[i]) }

  function Decimal(n: nat): (s: string)
    ensures s != [] && AllDigits(s)
  {
    if n < 10 then [Digit(n)] else Decimal(n / 10) + [Digit(n % 10)]
  }

  function DigitsValue(s: string): nat
    requires AllDigits(s)
  {
    if s == [] then 0 else 10 * DigitsValue(s[..|s| - 1]) + (s[|s| - 1] as int - 48)
  }

  lemma {:induction false} DecimalRoundTrip(n: nat)
    ensures DigitsValue(Decimal(n)) == n
  {
    if n >= 10 {
      DecimalRoundTrip(n / 10);
      assert Decimal(n)[..|Decimal(n)| - 1] == Decimal(n / 10);
    } else {
      assert Decimal(n)[..0] == [];
    }
  }

  /** Numerals are written with the highest digit first, in the usual digits. */
  lemma DecimalDigits(n: nat, d: nat)
    requires d < 10
    ensures Decimal(10 * n + d) == (if n == 0 then "" else Decimal(n)) + ["0123456789"[d]]
  {
    assert "0123456789"[d] == Digit(d);
  }

  lemma DecimalInjective(m: nat, n: nat)
    requires Decimal(m) == Decimal(n)
    ensures m == n
  {
    DecimalRoundTrip(m);
    DecimalRoundTrip(n);
  }
}
