/**
  The two string operations the network-type classifier takes from the
  standard library: lowering the case of a label and testing a prefix.
  Lowering is modelled on ASCII only; every other character is kept as is.
 */
module Text {

  predicate IsAsciiUpper(c: char) {
    'A' <= c <= 'Z'
  }

  predicate IsAsciiLower(c: char) {
    'a' <= c <= 'z'
  }

  predicate IsAsciiLetter(c: char) {
    IsAsciiLower(c) || IsAsciiUpper(c)
  }

  /** The lower-case form of one character. */
  function LowerChar(c: char): (r: char)
    ensures !IsAsciiUpper(r)
    ensures r == c <==> !IsAsciiUpper(c)
    ensures IsAsciiUpper(c) ==> r as int - 'a' as int == c as int - 'A' as int
    ensures IsAsciiLetter(r) <==> IsAsciiLetter(c)
  {
    if IsAsciiUpper(c) then (c as int - 'A' as int + 'a' as int) as char else c
  }

  /** The upper-case form of one character: the mirror image of `LowerChar`. */
  function UpperChar(c: char): (r: char)
    ensures !IsAsciiLower(r)
    ensures r == c <==> !IsAsciiLower(c)
    ensures IsAsciiLower(c) ==> r as int - 'A' as int == c as int - 'a' as int
  {
    if IsAsciiLower(c) then (c as int - 'a' as int + 'A' as int) as char else c
  }

  /** The lower-case form of a string: same length, each character lowered, no upper-case letter left. */
  function Lower(s: string): (r: string)
    ensures |r| == |s|
    ensures forall i :: 0 <= i < |s| ==> r[i] == LowerChar(s[i])
    ensures forall i :: 0 <= i < |r| ==> !IsAsciiUpper(r[i])
  {
    if s == [] then [] else [LowerChar(s[0])] + Lower(s[1..])
  }

  /** The upper-case form of a string: same length, each character raised, no lower-case letter left. */
  function Upper(s: string): (r: string)
    ensures |r| == |s|
    ensures forall i :: 0 <= i < |s| ==> r[i] == UpperChar(s[i])
    ensures forall i :: 0 <= i < |r| ==> !IsAsciiLower(r[i])
  {
    if s == [] then [] else [UpperChar(s[0])] + Upper(s[1..])
  }

  /** `s` begins with `p`. */
  predicate StartsWith(s: string, p: string) {
    |p| <= |s| && s[..|p|] == p
  }

  /** Lowering a string that is already lowered changes nothing. */
  lemma {:induction false} LowerIdempotent(s: string)
    ensures Lower(Lower(s)) == Lower(s)
  {
    if s != [] {
      LowerIdempotent(s[1..]);
      assert Lower(s) == [LowerChar(s[0])] + Lower(s[1..]);
      assert Lower(s)[1..] == Lower(s[1..]);
    }
  }

  /** Raising a label to upper case and lowering it gives the label lowered: case is all lowering forgets. */
  lemma {:induction false} LowerUpper(s: string)
    ensures Lower(Upper(s)) == Lower(s)
  {
    if s != [] {
      LowerUpper(s[1..]);
    }
  }

  /** Lowering distributes over concatenation. */
  lemma {:induction false} LowerAppend(s: string, t: string)
    ensures Lower(s + t) == Lower(s) + Lower(t)
  {
    if s != [] {
      var st := s + t;
      assert st[0] == s[0] && st[1..] == s[1..] + t;
      LowerAppend(s[1..], t);
      assert Lower(st) == [LowerChar(s[0])] + (Lower(s[1..]) + Lower(t));
      assert Lower(s) == [LowerChar(s[0])] + Lower(s[1..]);
    }
  }

  /** A string that contains no upper-case ASCII letter is its own lower-case form. */
  lemma {:induction false} LowerOfLowered(s: string)
    requires forall i :: 0 <= i < |s| ==> !IsAsciiUpper(s[i])
    ensures Lower(s) == s
  {
    if s != [] {
      LowerOfLowered(s[1..]);
    }
  }

  /** A prefix of `s` is a prefix of every extension of `s`. */
  lemma StartsWithAppend(s: string, t: string, p: string)
    requires StartsWith(s, p)
    ensures StartsWith(s + t, p)
  {
    assert (s + t)[..|p|] == s[..|p|];
  }
}
