/** The cursor over a configuration line: GetNextChar and GetNextData (src/Distributor.h). */
module Tokenizer {
  import opened Text

  /** GetNextData's loop stops at byte b: the end-of-input value, a comment marker, or a non-zero delimiter. */
  predicate Stops(b: byte, delim: byte) {
    b == EOI || b == HASH || (delim != 0 && b == delim)
  }

  /** No byte of s would stop a scan for this delimiter. */
  predicate Plain(s: seq<byte>, delim: byte) {
    forall x :: x in s ==> !Stops(x, delim)
  }

  /** What one GetNextData call does before trimming: the bytes it accumulates and where it leaves the cursor. */
  datatype Cut = Cut(raw: seq<byte>, next: nat)

  /**
   * The field GetNextData reads from index i. The result is the longest run of plain bytes from i,
   * and the cursor is left after a consumed delimiter or 0xFF, on a '#', or at the end of the line.
   */
  function Scan(line: seq<byte>, i: nat, delim: byte): Cut
    decreases |line| - i
  {
    if |line| <= i then Cut([], i)
    else if line[i] == EOI then Cut([], i + 1)
    else if line[i] == HASH then Cut([], i)
    else if delim != 0 && line[i] == delim then Cut([], i + 1)
    else
      var rest := Scan(line, i + 1, delim);
      Cut([line[i]] + rest.raw, rest.next)
  }

  /** GetNextChar: the byte under the cursor, advancing it, or 0xFF with the cursor left alone. */
  method GetNextChar(line: seq<byte>, index: nat) returns (ch: byte, index': nat)
    ensures index < |line| ==> ch == line[index] && index' == index + 1
    ensures |line| <= index ==> ch == EOI && index' == index
  {
    if index < |line| {
      return line[index], index + 1;
    }
    return EOI, index;
  }

  /**
   * GetNextData: reads bytes up to the delimiter (none when delim is 0), a '#' (the cursor is left on
   * it) or the end of input, and returns them trimmed.
   */
  method GetNextData(line: seq<byte>, index: nat, delim: byte, trim: seq<byte> -> seq<byte>)
    returns (field: seq<byte>, index': nat)
    ensures index' == Scan(line, index, delim).next
    ensures field == trim(Scan(line, index, delim).raw)
  {
    var raw: seq<byte> := [];
    index' := index;
    while true
      invariant Scan(line, index, delim).raw == raw + Scan(line, index', delim).raw
      invariant Scan(line, index, delim).next == Scan(line, index', delim).next
      decreases |line| - index'
    {
      ghost var at := index';
      var ch: byte;
      ch, index' := GetNextChar(line, index');
      if ch == EOI {
        assert Scan(line, at, delim) == Cut([], index') && raw + [] == raw;
        break;
      }
      if ch == HASH {
        if index' > 0 {
          index' := index' - 1;
        }
        assert Scan(line, at, delim) == Cut([], index') && raw + [] == raw;
        break;
      }
      if delim != 0 && ch == delim {
        assert Scan(line, at, delim) == Cut([], index') && raw + [] == raw;
        break;
      }
      assert Scan(line, at, delim).raw == [ch] + Scan(line, index', delim).raw;
      raw := raw + [ch];
    }
    field := trim(raw);
  }

  /**
   * What Scan reads, stated without its loop: from inside the line, the raw field is the run of
   * plain bytes starting at i, and the cursor stops either at the end of the line or on a '#'
   * just after it, or one past a 0xFF or delimiter byte that ends it.
   */
  lemma {:induction false} ScanShape(line: seq<byte>, i: nat, delim: byte)
    ensures var c := Scan(line, i, delim);
      && (|line| <= i ==> c == Cut([], i))
      && (i < |line| ==> i + |c.raw| <= c.next <= |line| && c.raw == line[i..i + |c.raw|])
      && Plain(c.raw, delim)
      && (i < |line| ==>
            || (c.next == i + |c.raw| && (c.next == |line| || line[c.next] == HASH))
            || (c.next == i + |c.raw| + 1 && (line[c.next - 1] == EOI || (delim != 0 && line[c.next - 1] == delim))))
    decreases |line| - i
  {
    if i < |line| && !Stops(line[i], delim) {
      ScanShape(line, i + 1, delim);
      var rest := Scan(line, i + 1, delim);
      assert Scan(line, i, delim).raw == [line[i]] + rest.raw;
      assert forall x :: x in [line[i]] + rest.raw ==> x == line[i] || x in rest.raw;
    }
  }

  /** A scan reads no further than the first stopping byte after its start. */
  lemma {:induction false} ScanStopsFirst(line: seq<byte>, i: nat, delim: byte, p: nat)
    requires i <= p < |line| && Stops(line[p], delim)
    ensures i + |Scan(line, i, delim).raw| <= p
    decreases p - i
  {
    if !Stops(line[i], delim) {
      ScanStopsFirst(line, i + 1, delim, p);
    }
  }

  /** The cursor never moves backwards and, from inside the line, never past its end. */
  lemma ScanBounds(line: seq<byte>, i: nat, delim: byte)
    ensures i <= Scan(line, i, delim).next
    ensures i <= |line| ==> Scan(line, i, delim).next <= |line|
  {
    ScanShape(line, i, delim);
  }

  /** Once a scan stops on a '#', every later scan returns nothing and leaves the cursor there. */
  lemma CommentSticks(line: seq<byte>, i: nat, delim: byte, delim': byte)
    requires Scan(line, i, delim).next < |line| && line[Scan(line, i, delim).next] == HASH
    ensures Scan(line, Scan(line, i, delim).next, delim') == Cut([], Scan(line, i, delim).next)
  {
  }

  /** Scanning across a plain run f reads f and continues from just past it. */
  lemma {:induction false} ScanAcross(line: seq<byte>, i: nat, f: seq<byte>, delim: byte)
    requires i + |f| <= |line| && line[i..i + |f|] == f && Plain(f, delim)
    ensures Scan(line, i, delim) == Cut(f + Scan(line, i + |f|, delim).raw, Scan(line, i + |f|, delim).next)
    decreases |f|
  {
    if f != [] {
      var tail := f[1..];
      assert line[i] == f[0] && f[0] in f;
      assert forall x :: x in tail ==> x in f;
      assert i + 1 + |tail| == i + |f|;
      assert line[i + 1..i + |f|] == tail;
      ScanAcross(line, i + 1, tail, delim);
      var after := Scan(line, i + |f|, delim);
      assert Scan(line, i, delim) == Cut([f[0]] + Scan(line, i + 1, delim).raw, Scan(line, i + 1, delim).next);
      assert [f[0]] + (tail + after.raw) == f + after.raw;
    }
  }
}
