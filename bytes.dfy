/**
 * The configuration text is a Go string, read byte by byte.  This module
 * holds the byte type, the ASCII bytes the parser dispatches on, and the
 * two computations on byte strings that the parser relies on: counting the
 * line feeds a cursor step crosses, and Go's `string(c)` conversion that
 * the parser applies to every byte it copies into an identifier or a
 * string literal.
 */
module Bytes {

  newtype byte = b: int | 0 <= b < 256

  type Bytes = seq<byte>

  const NUL: byte := 0
  const TAB: byte := '\t' as byte
  const LF: byte := '\n' as byte
  const CR: byte := '\r' as byte
  const SPACE: byte := ' ' as byte
  const QUOTE: byte := '"' as byte
  const LPAREN: byte := '(' as byte
  const RPAREN: byte := ')' as byte
  const PLUS: byte := '+' as byte
  const COMMA: byte := ',' as byte
  const DOT: byte := '.' as byte
  const EQUALS: byte := '=' as byte
  const AT: byte := '@' as byte
  const LBRACKET: byte := '[' as byte
  const RBRACKET: byte := ']' as byte
  const LBRACE: byte := '{' as byte
  const RBRACE: byte := '}' as byte

  predicate IsAscii(s: Bytes) {
    forall i | 0 <= i < |s| :: s[i] < 0x80
  }

  /** The bytes of a Go string literal written in ASCII. */
  function Ascii(s: string): (r: Bytes)
    requires forall i | 0 <= i < |s| :: s[i] as int < 0x80
    ensures |r| == |s| && IsAscii(r)
  {
    seq(|s|, i requires 0 <= i < |s| => s[i] as int as byte)
  }

  /** Number of line feeds among the first i bytes of s. */
  function LineFeeds(s: Bytes, i: nat): (k: nat)
    requires i <= |s|
    ensures k <= i
  {
    if i == 0 then 0 else LineFeeds(s, i - 1) + (if s[i - 1] == LF then 1 else 0)
  }

  /**
   * Go's `string(c)` for a byte c: the conversion treats c as a code point,
   * so it yields the UTF-8 encoding of that code point: one byte below
   * 0x80 and two bytes from 0x80 on.
   */
  function RuneBytes(b: byte): (r: Bytes)
    ensures b < 0x80 <==> |r| == 1
    ensures b < 0x80 ==> r == [b]
    ensures b >= 0x80 ==> |r| == 2 && 0xC2 <= r[0] <= 0xC3 && 0x80 <= r[1] < 0xC0
  {
    if b < 0x80 then [b]
    else [(0xC0 + b as int / 64) as byte, (0x80 + b as int % 64) as byte]
  }

  /**
   * The Go string obtained by `res += string(c)` for every byte c of s, in
   * order: the way the parser accumulates identifiers and string contents.
   */
  function Widen(s: Bytes): (r: Bytes)
    ensures |s| <= |r| <= 2 * |s|
  {
    if s == [] then [] else Widen(s[..|s| - 1]) + RuneBytes(s[|s| - 1])
  }

  /** Converting a slice one byte longer appends the conversion of that byte. */
  lemma WidenSnoc(s: Bytes, i: nat, j: nat)
    requires i <= j < |s|
    ensures Widen(s[i..j + 1]) == Widen(s[i..j]) + RuneBytes(s[j])
  {
    assert s[i..j + 1][..j - i] == s[i..j];
  }

  /** On ASCII text the accumulated string is exactly the bytes read. */
  lemma {:induction false} WidenAscii(s: Bytes)
    requires IsAscii(s)
    ensures Widen(s) == s
    decreases |s|
  {
    if s != [] {
      WidenAscii(s[..|s| - 1]);
      assert s[..|s| - 1] + [s[|s| - 1]] == s;
    }
  }

  /** The encoding of one byte can be read back off the end of a string. */
  lemma RuneBytesSuffix(wa: Bytes, x: byte, wb: Bytes, y: byte)
    requires wa + RuneBytes(x) == wb + RuneBytes(y)
    ensures x == y && wa == wb
  {
    var w := wa + RuneBytes(x);
    assert w[|w| - 1] == RuneBytes(x)[|RuneBytes(x)| - 1] == RuneBytes(y)[|RuneBytes(y)| - 1];
    if x >= 0x80 && y >= 0x80 {
      assert w[|w| - 2] == RuneBytes(x)[0] == RuneBytes(y)[0];
      assert x as int / 64 == y as int / 64 && x as int % 64 == y as int % 64;
    }
    assert |RuneBytes(x)| == |RuneBytes(y)|;
    assert wa == w[..|wa|] == wb;
  }

  /**
   * Distinct byte strings accumulate into distinct Go strings, so two
   * identifiers name the same binding exactly when their bytes agree.
   */
  lemma {:induction false} WidenInjective(a: Bytes, b: Bytes)
    requires Widen(a) == Widen(b)
    ensures a == b
    decreases |a|
  {
    if a == [] || b == [] {
      assert |Widen(a)| == 0 || |Widen(b)| == 0;
    } else {
      RuneBytesSuffix(Widen(a[..|a| - 1]), a[|a| - 1], Widen(b[..|b| - 1]), b[|b| - 1]);
      WidenInjective(a[..|a| - 1], b[..|b| - 1]);
      assert a == a[..|a| - 1] + [a[|a| - 1]] && b == b[..|b| - 1] + [b[|b| - 1]];
    }
  }

  /** Every byte the conversion produces for a byte of s is that byte or at least 0x80. */
  lemma {:induction false} WidenBytes(s: Bytes, k: nat)
    requires k < |Widen(s)|
    ensures Widen(s)[k] >= 0x80 || Widen(s)[k] in s
    decreases |s|
  {
    var s' := s[..|s| - 1];
    var w' := Widen(s');
    if k < |w'| {
      WidenBytes(s', k);
      assert forall x | x in s' :: x in s;
    } else {
      assert Widen(s)[k] == RuneBytes(s[|s| - 1])[k - |w'|];
    }
  }
}
