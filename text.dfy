/** The part of JavaScript's String.prototype.trim that the task form relies on:
    a title is rejected when trimming leaves the empty string. */
module Text {

  /** The code points trim removes: ECMAScript WhiteSpace (tab, vertical tab,
      form feed, space, no-break space, byte order mark and every other
      Unicode "Zs" space separator) and LineTerminator (line feed, carriage
      return, line separator, paragraph separator). */
  predicate IsWhitespace(c: char) {
    var n := c as int;
    n == 0x09 || n == 0x0A || n == 0x0B || n == 0x0C || n == 0x0D
    || n == 0x20 || n == 0xA0 || n == 0x1680
    || (0x2000 <= n <= 0x200A)
    || n == 0x2028 || n == 0x2029 || n == 0x202F || n == 0x205F
    || n == 0x3000 || n == 0xFEFF
  }

  /** Every character of s is whitespace (the empty string included). */
  predicate IsBlank(s: string) {
    forall i :: 0 <= i < |s| ==> IsWhitespace(s[i])
  }

  /** Drops the leading whitespace: the result is a suffix of s, what was
      dropped is blank, and the result does not start with whitespace. */
  function TrimStart(s: string): (r: string)
    ensures |r| <= |s| && r == s[|s| - |r|..]
    ensures IsBlank(s[..|s| - |r|])
    ensures r != [] ==> !IsWhitespace(r[0])
  {
    if s != [] && IsWhitespace(s[0]) then TrimStart(s[1..]) else s
  }

  /** Drops the trailing whitespace: the result is a prefix of s, what was
      dropped is blank, and the result does not end with whitespace. */
  function TrimEnd(s: string): (r: string)
    ensures |r| <= |s| && r == s[..|r|]
    ensures IsBlank(s[|r|..])
    ensures r != [] ==> !IsWhitespace(r[|r| - 1])
  {
    if s != [] && IsWhitespace(s[|s| - 1]) then TrimEnd(s[..|s| - 1]) else s
  }

  /** String.prototype.trim. It yields the empty string exactly when every
      character is whitespace, which is the test behind the form's guard
      `!title.trim()`. */
  function Trim(s: string): (r: string)
    ensures r == [] <==> IsBlank(s)
  {
    CutsEmptyIffBlank(s);
    TrimEnd(TrimStart(s))
  }

  /** Trimming a string leaves a contiguous piece of it with blank margins on
      both sides, and that piece neither starts nor ends with whitespace. */
  lemma TrimIsInnerSlice(s: string)
    ensures var t := Trim(s); var i := |s| - |TrimStart(s)|;
      i + |t| <= |s| && t == s[i..i + |t|]
      && IsBlank(s[..i]) && IsBlank(s[i + |t|..])
      && (t != [] ==> !IsWhitespace(t[0]) && !IsWhitespace(t[|t| - 1]))
  {
    var u := TrimStart(s);
    var t := TrimEnd(u);
    var i := |s| - |u|;
    assert u == s[i..];
    assert t == u[..|t|];
    assert u[|t|..] == s[i + |t|..];
  }

  /** Cutting the leading and then the trailing whitespace leaves nothing
      exactly when every character is whitespace. */
  lemma CutsEmptyIffBlank(s: string)
    ensures TrimEnd(TrimStart(s)) == [] <==> IsBlank(s)
  {
    var u := TrimStart(s);
    var k := |s| - |u|;
    if IsBlank(s) {
      // a non-empty u would start with a character of s that is not whitespace
      assert u == [];
    }
    if TrimEnd(u) == [] {
      assert IsBlank(u[0..]);
      assert u[0..] == u;
      // a blank u cannot start with a non-whitespace character, so nothing is left after the cut
      assert u == [];
      assert s[..k] == s;
    }
  }
}
