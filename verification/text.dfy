/** The bytes of a configuration line and what is assumed of the trimming routine. */
module Text {

  /** One byte of a line. The source reads the characters of a std::string through uint8_t. */
  newtype byte = x: int | 0 <= x < 256

  /** '#': starts a comment. */
  const HASH: byte := 0x23

  /** '|': separates the fields of a rule. */
  const BAR: byte := 0x7C

  /** The value GetNextChar returns past the end of the line; a literal 0xFF byte reads the same. */
  const EOI: byte := 0xFF

  /** t occurs in s as one contiguous run. */
  ghost predicate IsInfix(t: seq<byte>, s: seq<byte>) {
    exists a, b :: 0 <= a <= b <= |s| && t == s[a..b]
  }

  /**
   * Utils::Trim is defined outside this model. All that is assumed of it is that it keeps a
   * contiguous run of its input; which bytes it strips is left open.
   */
  ghost predicate IsTrim(trim: seq<byte> -> seq<byte>) {
    forall s :: IsInfix(trim(s), s)
  }

  lemma InfixTransitive(a: seq<byte>, b: seq<byte>, c: seq<byte>)
    requires IsInfix(a, b) && IsInfix(b, c)
    ensures IsInfix(a, c)
  {
    var x, y :| 0 <= x <= y <= |b| && a == b[x..y];
    var u, v :| 0 <= u <= v <= |c| && b == c[u..v];
    assert forall k :: 0 <= k < |a| ==> a[k] == b[x + k] == c[u + x + k];
    assert a == c[u + x..u + y];
  }

  /** A trimmed string is no longer than its input and holds only bytes of its input. */
  lemma TrimWithin(trim: seq<byte> -> seq<byte>, s: seq<byte>)
    requires IsTrim(trim)
    ensures IsInfix(trim(s), s)
    ensures |trim(s)| <= |s|
    ensures forall x :: x in trim(s) ==> x in s
  {
  }
}
