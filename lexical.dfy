/**
 * Token-level specification of the parser's scanning loops over the text
 * `s`: where a run of blanks, an identifier and the body of a string
 * literal end, given where they start.  The loops of `Parser.ParseSpaces`,
 * `Parser.ParseIdentifier` and `Parser.ParseString` are proved to stop
 * exactly there.
 */
module Lexical {
  import opened Bytes

  /** `get`: the byte at position i, or a zero byte at or past the end. */
  function ByteAt(s: Bytes, i: nat): byte {
    if i < |s| then s[i] else NUL
  }

  /** The blanks skipped by `parseSpaces` (parser.go:437). */
  predicate IsSpace(b: byte): (r: bool)
    ensures r ==> NUL < b <= SPACE
  {
    b == SPACE || b == TAB || b == LF || b == CR
  }

  /** The bytes that end an identifier (parser.go:422), the zero byte included. */
  predicate IsIdentStop(b: byte): (r: bool)
    ensures b == NUL || IsSpace(b) ==> r
    ensures r ==> b < 0x80
  {
    || b == NUL || IsSpace(b)
    || b == LBRACE || b == RBRACE || b == LPAREN || b == RPAREN
    || b == LBRACKET || b == RBRACKET || b == PLUS || b == EQUALS
    || b == COMMA || b == QUOTE || b == DOT
  }

  /** The bytes that end the body of a string literal (parser.go:400-403). */
  predicate IsQuoteStop(b: byte) {
    b == QUOTE || b == NUL
  }

  /** The end of the run of blanks that starts at i. */
  function SpacesEnd(s: Bytes, i: nat): (j: nat)
    requires i <= |s|
    ensures i <= j <= |s|
    ensures forall k | i <= k < j :: IsSpace(s[k])
    ensures !IsSpace(ByteAt(s, j))
    decreases |s| - i
  {
    if i < |s| && IsSpace(s[i]) then SpacesEnd(s, i + 1) else i
  }

  /** The end of the identifier that starts at i: the first identifier stop. */
  function IdentEnd(s: Bytes, i: nat): (j: nat)
    requires i <= |s|
    ensures i <= j <= |s|
    ensures forall k | i <= k < j :: !IsIdentStop(s[k])
    ensures IsIdentStop(ByteAt(s, j))
    decreases |s| - i
  {
    if i < |s| && !IsIdentStop(s[i]) then IdentEnd(s, i + 1) else i
  }

  /** The end of the body of a string literal whose first byte is at i. */
  function QuoteEnd(s: Bytes, i: nat): (j: nat)
    requires i <= |s|
    ensures i <= j <= |s|
    ensures forall k | i <= k < j :: !IsQuoteStop(s[k])
    ensures IsQuoteStop(ByteAt(s, j))
    decreases |s| - i
  {
    if i < |s| && !IsQuoteStop(s[i]) then QuoteEnd(s, i + 1) else i
  }

  /** The contracts of IdentEnd pin it down: no other end position satisfies them. */
  lemma {:induction false} IdentEndUnique(s: Bytes, i: nat, j: nat)
    requires i <= j <= |s|
    requires forall k | i <= k < j :: !IsIdentStop(s[k])
    requires IsIdentStop(ByteAt(s, j))
    ensures IdentEnd(s, i) == j
    decreases j - i
  {
    if i < j {
      IdentEndUnique(s, i + 1, j);
    }
  }

  /**
   * An identifier read at i contains no stop byte even after Go's byte to
   * string conversion: the conversion only adds bytes from 0x80 on, and
   * every stop byte is ASCII.
   */
  lemma IdentifierHasNoStop(s: Bytes, i: nat, k: nat)
    requires i <= |s|
    requires k < |Widen(s[i..IdentEnd(s, i)])|
    ensures !IsIdentStop(Widen(s[i..IdentEnd(s, i)])[k])
  {
    var raw := s[i..IdentEnd(s, i)];
    WidenBytes(raw, k);
    var b := Widen(raw)[k];
    if b < 0x80 {
      var m :| 0 <= m < |raw| && raw[m] == b;
      assert raw[m] == s[i + m];
    }
  }
}
