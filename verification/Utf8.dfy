/** Text as a sequence of Unicode scalar values, with the byte offsets of its
    UTF-8 form (section 3 of RFC 3629) as prefix sums. */
module Utf8 {

  /** Bytes of the UTF-8 form of one character. */
  function LenUtf8(c: char): (n: nat)
    ensures 1 <= n <= 4
  {
    if c as int < 0x80 then 1
    else if c as int < 0x800 then 2
    else if c as int < 0x1_0000 then 3
    else 4
  }

  /** The lengths change exactly behind the last one-, two- and three-byte characters. */
  lemma {:induction false} LenUtf8Steps(c: char)
    ensures LenUtf8(c) == 1 + (if '\U{7F}' < c then 1 else 0) + (if '\U{7FF}' < c then 1 else 0)
                            + (if '\U{FFFF}' < c then 1 else 0)
  {
  }

  /** Bytes of a whole text. */
  function Bytes(s: string): nat {
    if s == [] then 0 else Bytes(s[..|s| - 1]) + LenUtf8(s[|s| - 1])
  }

  /** Byte offset at which character `i` starts (the text's length when `i == |s|`). */
  function Off(s: string, i: nat): nat
    requires i <= |s|
  {
    Bytes(s[..i])
  }

  /** Byte `b` is where some character of `s` starts, or the end of `s`. */
  predicate IsBoundary(s: string, b: nat) {
    b == Bytes(s) || (s != [] && IsBoundary(s[..|s| - 1], b))
  }

  lemma {:induction false} OffStep(s: string, i: nat)
    requires i < |s|
    ensures Off(s, i + 1) == Off(s, i) + LenUtf8(s[i])
  {
    assert s[..i + 1][..i] == s[..i];
  }

  lemma {:induction false} OffEnds(s: string)
    ensures Off(s, 0) == 0 && Off(s, |s|) == Bytes(s)
  {
    assert s[..|s|] == s;
  }

  lemma {:induction false} OffStrict(s: string, i: nat, j: nat)
    requires i <= j <= |s|
    ensures Off(s, i) + (j - i) <= Off(s, j)
    decreases j
  {
    if i < j {
      OffStrict(s, i, j - 1);
      OffStep(s, j - 1);
    }
  }

  lemma {:induction false} BytesConcat(s: string, t: string)
    ensures Bytes(s + t) == Bytes(s) + Bytes(t)
  {
    if t == [] {
      assert s + t == s;
    } else {
      var n := |t| - 1;
      assert (s + t)[..|s + t| - 1] == s + t[..n];
      BytesConcat(s, t[..n]);
    }
  }

  /** The character index of a boundary; unique because every character has a byte. */
  function CharAt(s: string, b: nat): (i: nat)
    requires IsBoundary(s, b)
    ensures i <= |s| && Off(s, i) == b
  {
    if b == Bytes(s) then
      assert s[..|s|] == s;
      |s|
    else
      var n := |s| - 1;
      var i := CharAt(s[..n], b);
      assert s[..n][..i] == s[..i];
      i
  }

  lemma {:induction false} OffIsBoundary(s: string, i: nat)
    requires i <= |s|
    ensures IsBoundary(s, Off(s, i))
  {
    if i == |s| {
      assert s[..i] == s;
    } else {
      var n := |s| - 1;
      assert s[..n][..i] == s[..i];
      OffIsBoundary(s[..n], i);
    }
  }

  lemma {:induction false} CharAtOff(s: string, i: nat)
    requires i <= |s|
    ensures IsBoundary(s, Off(s, i)) && CharAt(s, Off(s, i)) == i
  {
    OffIsBoundary(s, i);
    var k := CharAt(s, Off(s, i));
    if k < i { OffStrict(s, k, i); } else { OffStrict(s, i, k); }
  }

  /** `&s[lo..hi]`, which needs both ends on a boundary and in order. */
  predicate Sliceable(s: string, lo: nat, hi: nat) {
    lo <= hi && IsBoundary(s, lo) && IsBoundary(s, hi)
  }

  function Slice(s: string, lo: nat, hi: nat): (t: string)
    requires Sliceable(s, lo, hi)
    ensures Bytes(t) == hi - lo
  {
    var i, j := CharAt(s, lo), CharAt(s, hi);
    assert i <= j by { if j < i { OffStrict(s, j, i); } }
    assert Bytes(s[i..j]) == hi - lo by {
      BytesConcat(s[..i], s[i..j]);
      assert s[..i] + s[i..j] == s[..j];
    }
    s[i..j]
  }

  lemma {:induction false} SliceOff(s: string, i: nat, j: nat)
    requires i <= j <= |s|
    ensures Sliceable(s, Off(s, i), Off(s, j))
    ensures Slice(s, Off(s, i), Off(s, j)) == s[i..j]
  {
    OffStrict(s, i, j);
    CharAtOff(s, i);
    CharAtOff(s, j);
  }
}
