// Character classes of the lexer's patterns, in the sense of the ECMAScript
// regular-expression grammar the lexer uses (\s, \d, \w and the raw-delimiter
// set), and the view of its text as bytes.

module Chars {

  import opened Utf8

  /** \s: space, tab, line feed, carriage return, vertical tab, form feed. */
  predicate IsSpace(c: char)
  {
    c == ' ' || c == '\t' || c == '\n' || c == '\r' || c as int == 0x0B || c as int == 0x0C
  }

  predicate IsDigit(c: char) { '0' <= c <= '9' }

  function DigitValue(c: char): (v: nat)
    requires IsDigit(c)
    ensures v < 10
  {
    (c as int) - ('0' as int)
  }

  predicate IsAlpha(c: char) { 'a' <= c <= 'z' || 'A' <= c <= 'Z' }

  /** \w */
  predicate IsWordChar(c: char) { IsAlpha(c) || IsDigit(c) || c == '_' }

  predicate IsHexDigit(c: char) { IsDigit(c) || 'a' <= c <= 'f' || 'A' <= c <= 'F' }

  predicate IsOctDigit(c: char) { '0' <= c <= '7' }

  predicate IsBinDigit(c: char) { c == '0' || c == '1' }

  /**
   * The characters a raw string or raw quoted identifier may use in its
   * delimiter: letters, digits and !"#%&'*+,-./:;<=>?[]^_{|}~ (written below
   * as the ranges these form).
   */
  predicate IsDelimChar(c: char)
  {
    IsAlpha(c) || IsDigit(c)
    || '!' <= c <= '#' || '%' <= c <= '\'' || '*' <= c <= '/' || ':' <= c <= '?'
    || c == '[' || ']' <= c <= '_' || '{' <= c <= '~'
  }

  /** What `(.|\n)` admits: every character except a carriage return. */
  predicate DotOrNewline(c: char) { c != '\r' }

  /** The lexer reads its input as bytes; each character of the model stands for one byte. */
  predicate IsByteString(s: string)
  {
    forall k :: 0 <= k < |s| ==> s[k] as int < 256
  }

  function ToBytes(s: string): (b: seq<Byte>)
    requires IsByteString(s)
    ensures |b| == |s| && forall k :: 0 <= k < |s| ==> b[k] == s[k] as int
  {
    seq(|s|, k requires 0 <= k < |s| => s[k] as int)
  }

  lemma ToBytesSlice(s: string, i: nat, j: nat)
    requires IsByteString(s) && i <= j <= |s|
    ensures IsByteString(s[i..j]) && ToBytes(s[i..j]) == ToBytes(s)[i..j]
  {
  }

  /**
   * The bytes of a string whose characters stand for bytes.  Characters are
   * taken modulo 256 so that the conversion is total; on byte strings, the
   * only inputs the lexer reads, it is exact.
   */
  function ByteValues(s: string): (b: seq<Byte>)
    ensures |b| == |s|
    ensures IsByteString(s) ==> b == ToBytes(s)
  {
    seq(|s|, k requires 0 <= k < |s| => (s[k] as int) % 256)
  }
}
