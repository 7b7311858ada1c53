/** Strings as the components see them: JavaScript's `trim()`, JavaScript's
    conversion of a non-negative integer to decimal text inside a template
    literal, and the optional values that stand for `null`. */
module Text {

  datatype Option<+T> = None | Some(value: T)

  /** The characters `String.prototype.trim` strips: the WhiteSpace and
      LineTerminator code points of the ECMAScript Language Specification
      (tab, vertical tab, form feed, space, no-break space, byte order mark,
      the Unicode space separators, line feed, carriage return, line and
      paragraph separator). */
  const Whitespace: set<char> := {
    '\t', '\n', '\U{000B}', '\U{000C}', '\r', ' ', '\U{00A0}', '\U{1680}',
    '\U{2000}', '\U{2001}', '\U{2002}', '\U{2003}', '\U{2004}', '\U{2005}',
    '\U{2006}', '\U{2007}', '\U{2008}', '\U{2009}', '\U{200A}',
    '\U{2028}', '\U{2029}', '\U{202F}', '\U{205F}', '\U{3000}', '\U{FEFF}'
  }

  predicate IsWhitespace(c: char) {
    c in Whitespace
  }

  /** Every character of `s` is whitespace (the empty string included). */
  predicate Blank(s: string) {
    forall i :: 0 <= i < |s| ==> IsWhitespace(s[i])
  }

  /** Neither end of `s` is whitespace. */
  predicate Trimmed(s: string) {
    s == [] || (!IsWhitespace(s[0]) && !IsWhitespace(s[|s| - 1]))
  }

  /** Length of the longest whitespace prefix of `s`. */
  function LeadingWhitespace(s: string): (k: nat)
    ensures k <= |s|
    ensures Blank(s[..k])
    ensures k < |s| ==> !IsWhitespace(s[k])
  {
    if s != [] && IsWhitespace(s[0]) then 1 + LeadingWhitespace(s[1..]) else 0
  }

  /** Length of the longest whitespace suffix of `s`. */
  function TrailingWhitespace(s: string): (k: nat)
    ensures k <= |s|
    ensures Blank(s[|s| - k..])
    ensures k < |s| ==> !IsWhitespace(s[|s| - 1 - k])
  {
    if s != [] && IsWhitespace(s[|s| - 1]) then 1 + TrailingWhitespace(s[..|s| - 1]) else 0
  }

  /** JavaScript's `s.trim()`: `s` without its leading and trailing whitespace.
      The result is what is left once a whitespace prefix and a whitespace
      suffix are cut off, and it has no whitespace at either end; so it is
      empty exactly when `s` is blank. */
  function Trim(s: string): (r: string)
    ensures |r| <= |s|
    ensures Trimmed(r)
    ensures exists pre, post :: s == pre + r + post && Blank(pre) && Blank(post)
    ensures r == [] <==> Blank(s)
  {
    var front := LeadingWhitespace(s);
    var rest := s[front..];
    var back := TrailingWhitespace(rest);
    TrimSlices(s, front, rest, back);
    rest[..|rest| - back]
  }

  /** The slices `Trim` takes: the longest whitespace prefix, then the
      longest whitespace suffix of what remains, and the core between. */
  lemma TrimSlices(s: string, front: nat, rest: string, back: nat)
    requires front <= |s| && Blank(s[..front]) && (front < |s| ==> !IsWhitespace(s[front]))
    requires rest == s[front..]
    requires back <= |rest| && Blank(rest[|rest| - back..])
    requires back < |rest| ==> !IsWhitespace(rest[|rest| - 1 - back])
    ensures var core := rest[..|rest| - back];
            && s == s[..front] + core + rest[|rest| - back..]
            && Trimmed(core)
            && (core == [] <==> Blank(s))
            && (exists pre, post :: s == pre + core + post && Blank(pre) && Blank(post))
  {
    var core := rest[..|rest| - back];
    assert core != [] ==> core[0] == s[front] && core[|core| - 1] == rest[|rest| - 1 - back];
    TrimParts(s[..front], core, rest[|rest| - back..]);
    assert s == s[..front] + core + rest[|rest| - back..];
  }

  /** A string cut into a blank prefix, a core and a blank suffix, where the
      core starts and ends off whitespace unless it is empty and the suffix
      is then the whole rest: the core is trimmed, and it is empty exactly
      when the whole string is blank. */
  lemma TrimParts(pre: string, core: string, post: string)
    requires Blank(pre) && Blank(post)
    requires core != [] ==> !IsWhitespace(core[0]) && !IsWhitespace(core[|core| - 1])
    ensures Trimmed(core)
    ensures core == [] <==> Blank(pre + core + post)
  {
    if core == [] {
      BlankConcat(pre, post);
      assert pre + core + post == pre + post;
    } else {
      assert (pre + core + post)[|pre|] == core[0];
    }
  }

  lemma BlankConcat(a: string, b: string)
    requires Blank(a) && Blank(b)
    ensures Blank(a + b)
  {
    forall i | 0 <= i < |a + b| ensures IsWhitespace((a + b)[i]) {
      if i < |a| { assert (a + b)[i] == a[i]; } else { assert (a + b)[i] == b[i - |a|]; }
    }
  }

  /** The decomposition of `Trim` is unique: a string that is a blank prefix,
      a trimmed core and a blank suffix trims to that core. */
  lemma TrimOfPadded(pre: string, core: string, post: string)
    requires Blank(pre) && Blank(post) && Trimmed(core)
    ensures Trim(pre + core + post) == core
  {
    var s := pre + core + post;
    if core == [] {
      assert s == pre + post;
      assert Blank(s);
    } else {
      assert s == pre + (core + post);
      LeadingOfPadded(pre, core + post);
      var rest := s[|pre|..];
      assert rest == core + post;
      TrailingOfPadded(core, post);
      assert rest[..|rest| - |post|] == core;
    }
  }

  lemma LeadingOfPadded(pre: string, rest: string)
    requires Blank(pre)
    requires rest != [] && !IsWhitespace(rest[0])
    ensures LeadingWhitespace(pre + rest) == |pre|
  {
    var s := pre + rest;
    var k := LeadingWhitespace(s);
    assert s[|pre|] == rest[0];
    assert forall i :: 0 <= i < |pre| ==> s[i] == pre[i];
  }

  lemma TrailingOfPadded(core: string, post: string)
    requires Blank(post)
    requires core != [] && !IsWhitespace(core[|core| - 1])
    ensures TrailingWhitespace(core + post) == |post|
  {
    var s := core + post;
    var k := TrailingWhitespace(s);
    assert s[|core| - 1] == core[|core| - 1];
    assert forall i :: 0 <= i < |post| ==> s[|core| + i] == post[i];
  }

  /** Trimming is idempotent, and a string already trimmed is its own trim. */
  lemma TrimIdempotent(s: string)
    ensures Trim(Trim(s)) == Trim(s)
    ensures Trimmed(s) ==> Trim(s) == s
  {
    TrimOfPadded([], Trim(s), []);
    assert [] + Trim(s) + [] == Trim(s);
    if Trimmed(s) {
      TrimOfPadded([], s, []);
      assert [] + s + [] == s;
    }
  }

  /** The decimal digit character for `d`. */
  function Digit(d: nat): (c: char)
    requires d < 10
    ensures '0' <= c <= '9'
  {
    ('0' as int + d) as char
  }

  /** The text JavaScript produces for a non-negative integer in a template
      literal: its decimal digits, without leading zeros. */
  function Decimal(n: nat): (r: string)
    ensures r != []
    ensures forall i :: 0 <= i < |r| ==> '0' <= r[i] <= '9'
    ensures r[0] == '0' ==> n == 0 && |r| == 1
    decreases n
  {
    if n < 10 then [Digit(n)] else Decimal(n / 10) + [Digit(n % 10)]
  }

  /** The value of a string of decimal digits. */
  function DecimalValue(s: string): nat
    requires forall i :: 0 <= i < |s| ==> '0' <= s[i] <= '9'
  {
    if s == [] then 0
    else DecimalValue(s[..|s| - 1]) * 10 + (s[|s| - 1] as int - '0' as int)
  }

  /** The decimal text of a number reads back as that number. */
  lemma {:induction false} DecimalRoundTrip(n: nat)
    ensures DecimalValue(Decimal(n)) == n
    decreases n
  {
    if n >= 10 {
      var r := Decimal(n);
      assert r[..|r| - 1] == Decimal(n / 10);
      DecimalRoundTrip(n / 10);
    }
  }

  /** Different numbers have different decimal texts. */
  lemma DecimalInjective(m: nat, n: nat)
    requires Decimal(m) == Decimal(n)
    ensures m == n
  {
    DecimalRoundTrip(m);
    DecimalRoundTrip(n);
  }
}
