/**
  `String.prototype.trim` as the roster screen and the picker use it: it removes the
  ECMAScript white-space and line-terminator characters from both ends of a string.
  A name is blank when nothing is left, which is when JavaScript treats the trimmed
  string as false.
 */
module Text {

  /** The ECMAScript WhiteSpace and LineTerminator code points (tab, line feed, space, no-break space, the Zs separators, ...). */
  predicate IsWhitespace(c: char) {
    var n := c as int;
    n == 0x09 || n == 0x0A || n == 0x0B || n == 0x0C || n == 0x0D || n == 0x20 || n == 0xA0
    || n == 0x1680 || (0x2000 <= n <= 0x200A) || n == 0x2028 || n == 0x2029
    || n == 0x202F || n == 0x205F || n == 0x3000 || n == 0xFEFF
  }

  /** Drops leading white space: the result is a suffix of `s`, only white space was dropped, and it starts with a non-space. */
  function TrimStart(s: string): (r: string)
    ensures |r| <= |s| && r == s[|s| - |r|..]
    ensures forall i :: 0 <= i < |s| - |r| ==> IsWhitespace(s[i])
    ensures r != [] ==> !IsWhitespace(r[0])
  {
    if s != [] && IsWhitespace(s[0]) then TrimStart(s[1..]) else s
  }

  /** Drops trailing white space: the result is a prefix of `s`, only white space was dropped, and it ends with a non-space. */
  function TrimEnd(s: string): (r: string)
    ensures |r| <= |s| && r == s[..|r|]
    ensures forall i :: |r| <= i < |s| ==> IsWhitespace(s[i])
    ensures r != [] ==> !IsWhitespace(r[|r| - 1])
  {
    if s != [] && IsWhitespace(s[|s| - 1]) then TrimEnd(s[..|s| - 1]) else s
  }

  /** `String.prototype.trim`: no longer than the input, and a non-empty result starts and ends with a non-space. */
  function Trim(s: string): (r: string)
    ensures |r| <= |s|
    ensures r != "" ==> !IsWhitespace(r[0]) && !IsWhitespace(r[|r| - 1])
  {
    var t := TrimStart(s);
    var r := TrimEnd(t);
    assert r != "" ==> r[0] == t[0];
    r
  }

  /** `!s.trim()` in JavaScript: the string is empty once trimmed. */
  predicate IsBlank(s: string) {
    Trim(s) == ""
  }

  /** A name as the roster screen stages it: not blank and already trimmed. */
  predicate IsTrimmedName(s: string) {
    s != "" && Trim(s) == s
  }

  /**
    `Trim(s)` is the slice `s[a..a + |Trim(s)|]`, everything outside the slice is white
    space, and the slice (when not empty) begins and ends with a non-space.
   */
  lemma TrimBounds(s: string) returns (a: nat)
    ensures a + |Trim(s)| <= |s| && Trim(s) == s[a..a + |Trim(s)|]
    ensures forall i :: 0 <= i < a ==> IsWhitespace(s[i])
    ensures forall i :: a + |Trim(s)| <= i < |s| ==> IsWhitespace(s[i])
    ensures Trim(s) != "" ==> !IsWhitespace(Trim(s)[0]) && !IsWhitespace(Trim(s)[|Trim(s)| - 1])
  {
    var t := TrimStart(s);
    a := |s| - |t|;
    PrefixOfSuffix(s, t, TrimEnd(t), a);
    TrailingWhitespace(s, t, a);
    TrimEndsNonSpace(s);
  }

  /** What `TrimEnd` drops from the suffix `t == s[a..]` is white space in `s`. */
  lemma TrailingWhitespace(s: string, t: string, a: nat)
    requires a <= |s| && t == s[a..]
    ensures forall i :: a + |TrimEnd(t)| <= i < |s| ==> IsWhitespace(s[i])
  {
    forall i | a + |TrimEnd(t)| <= i < |s|
      ensures IsWhitespace(s[i])
    {
      assert s[i] == t[i - a];
    }
  }

  /** A non-empty trimmed string begins and ends with a non-space. */
  lemma TrimEndsNonSpace(s: string)
    ensures Trim(s) != "" ==> !IsWhitespace(Trim(s)[0]) && !IsWhitespace(Trim(s)[|Trim(s)| - 1])
  {
    var t := TrimStart(s);
    var r := TrimEnd(t);
    if r != "" {
      assert r[0] == t[0];
    }
  }

  /** A prefix `r` of the suffix `t == s[a..]` is the slice of `s` starting at `a`. */
  lemma PrefixOfSuffix<T>(s: seq<T>, t: seq<T>, r: seq<T>, a: nat)
    requires a <= |s| && t == s[a..] && |r| <= |t| && r == t[..|r|]
    ensures a + |r| <= |s| && r == s[a..a + |r|]
    ensures forall i :: a <= i < |s| ==> s[i] == t[i - a]
  {
  }

  /** Trimming twice is trimming once. */
  lemma TrimIdempotent(s: string)
    ensures Trim(Trim(s)) == Trim(s)
  {
    var r := Trim(s);
    var _ := TrimBounds(s);
    assert TrimStart(r) == r;
    assert TrimEnd(r) == r;
  }

  /** A string is blank exactly when every one of its characters is white space. */
  lemma {:induction false} BlankIffAllWhitespace(s: string)
    ensures IsBlank(s) <==> forall i :: 0 <= i < |s| ==> IsWhitespace(s[i])
  {
    var a := TrimBounds(s);
    if !IsBlank(s) {
      assert !IsWhitespace(s[a]);
    }
  }

  /** A trimmed non-blank string is a staged name. */
  lemma TrimOfNonBlankIsName(s: string)
    requires !IsBlank(s)
    ensures IsTrimmedName(Trim(s))
  {
    TrimIdempotent(s);
  }
}
