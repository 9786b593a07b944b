/** Escaping of a user name inserted into a distinguished name (backend/internal/auth/ldap.go),
    against the string form of attribute values in section 2.4 of RFC 4514. Characters are runes. */
module DnEscape {
  import opened Base

  predicate Special(c: char) {
    c == ',' || c == '+' || c == '"' || c == '\\' || c == '<' || c == '>' || c == ';'
  }

  /** Whether the character at position `i` of an `n`-character value gets a backslash. */
  predicate Escaped(c: char, i: nat, n: nat) {
    Special(c) || (c == '#' && i == 0) || (c == ' ' && (i == 0 || i == n - 1))
  }

  /** The escaped form of the characters from position `i` on. */
  function EscapeFrom(s: string, i: nat): string
    requires i <= |s|
    decreases |s| - i
  {
    if i == |s| then []
    else (if Escaped(s[i], i, |s|) then ['\\', s[i]] else [s[i]]) + EscapeFrom(s, i + 1)
  }

  method Escape(s: string) returns (b: string)
    ensures b == EscapeFrom(s, 0)
  {
    b := [];
    for i := 0 to |s|
      invariant b + EscapeFrom(s, i) == EscapeFrom(s, 0)
    {
      var r := s[i];
      assert b + EscapeFrom(s, i)
          == b + (if Escaped(r, i, |s|) then ['\\', r] else [r]) + EscapeFrom(s, i + 1);
      if Special(r) {
        b := b + ['\\', r];
      } else if r == '#' && i == 0 {
        b := b + ['\\', r];
      } else if r == ' ' && (i == 0 || i == |s| - 1) {
        b := b + ['\\', r];
      } else {
        b := b + [r];
      }
    }
    assert b + [] == b;
  }

  /** What a reader makes of an escaped value: each backslash takes the next character literally. */
  function Unescape(t: string): Option<string> {
    if t == [] then Some([])
    else if t[0] != '\\' then
      var r := Unescape(t[1..]);
      if r.None? then None else Some([t[0]] + r.value)
    else if |t| == 1 then None
    else
      var r := Unescape(t[2..]);
      if r.None? then None else Some([t[1]] + r.value)
  }

  lemma {:induction false} UnescapeFrom(s: string, i: nat)
    requires i <= |s|
    ensures Unescape(EscapeFrom(s, i)) == Some(s[i..])
    decreases |s| - i
  {
    if i == |s| {
      assert s[i..] == [];
    } else {
      UnescapeFrom(s, i + 1);
      var t, rest := EscapeFrom(s, i), EscapeFrom(s, i + 1);
      assert s[i..] == [s[i]] + s[i + 1..];
      if Escaped(s[i], i, |s|) {
        assert t[0] == '\\' && t[1] == s[i] && t[2..] == rest;
      } else {
        assert t[0] == s[i] && t[1..] == rest;
      }
    }
  }

  /** Reading an escaped value gives back the value: the user name neither gains nor loses a
      character and cannot end the attribute value it is inserted in. */
  lemma EscapeRoundTrip(s: string)
    ensures Unescape(EscapeFrom(s, 0)) == Some(s)
  {
    UnescapeFrom(s, 0);
  }

  lemma EscapeIsInjective(s: string, t: string)
    ensures EscapeFrom(s, 0) == EscapeFrom(t, 0) <==> s == t
  {
    EscapeRoundTrip(s);
    EscapeRoundTrip(t);
  }

  /** Characters that section 2.4 of RFC 4514 allows after a backslash, apart from hexadecimal digits. */
  predicate MayFollowBackslash(c: char) {
    c in {'"', '+', ',', ';', '<', '>', '\\', ' ', '#', '='}
  }

  /** Characters that may not stand bare anywhere in a value. */
  predicate NeverBare(c: char) {
    c in {'"', '+', ',', ';', '<', '>', '\\', '\0'}
  }

  predicate IsHex(c: char) {
    '0' <= c <= '9' || 'A' <= c <= 'F' || 'a' <= c <= 'f'
  }

  /** The `string` production of section 2.4 of RFC 4514 from an inner position on: a pair, or a character
      that may stand bare, and the value does not end in a bare space. */
  predicate ConformsInside(t: string) {
    if t == [] then true
    else if t[0] == '\\' then
      || (|t| >= 2 && MayFollowBackslash(t[1]) && ConformsInside(t[2..]))
      || (|t| >= 3 && IsHex(t[1]) && IsHex(t[2]) && ConformsInside(t[3..]))
    else !NeverBare(t[0]) && t != " " && ConformsInside(t[1..])
  }

  predicate Conforms(t: string) {
    ConformsInside(t) && (t != [] ==> t[0] != ' ' && t[0] != '#')
  }

  lemma {:induction false} ConformsFrom(s: string, i: nat)
    requires i <= |s|
    ensures ConformsInside(EscapeFrom(s, i)) <==> '\0' !in s[i..]
    decreases |s| - i
  {
    if i < |s| {
      ConformsFrom(s, i + 1);
      var t, rest := EscapeFrom(s, i), EscapeFrom(s, i + 1);
      assert s[i..] == [s[i]] + s[i + 1..];
      if Escaped(s[i], i, |s|) {
        assert t[2..] == rest;
      } else {
        assert t[1..] == rest;
        if i + 1 < |s| {
          assert rest != [];
        }
      }
    }
  }

  /** The escaped value is a legal attribute value exactly when the user name has no NUL: that
      character, which section 2.4 also lists, is the one the code leaves alone. */
  lemma ConformsIffNoNul(s: string)
    ensures Conforms(EscapeFrom(s, 0)) <==> '\0' !in s
  {
    ConformsFrom(s, 0);
    assert s[0..] == s;
  }

  // ---- no more than is needed ----

  function Xs(n: nat): string {
    if n == 0 then [] else ['x'] + Xs(n - 1)
  }

  lemma {:induction false} XsConform(n: nat, t: string)
    ensures ConformsInside(Xs(n) + t) <==> ConformsInside(t)
  {
    if n == 0 {
      assert Xs(0) + t == t;
    } else {
      XsConform(n - 1, t);
      assert (Xs(n) + t)[1..] == Xs(n - 1) + t;
    }
  }

  lemma XsAfter(c: char, n: nat)
    ensures ConformsInside([c] + Xs(n)) <==> !NeverBare(c) && (c == ' ' ==> n > 0)
  {
    var t := [c] + Xs(n);
    assert t[1..] == Xs(n) == Xs(n) + [];
    XsConform(n, []);
    if n > 0 {
      assert t[1] == 'x';
    }
  }

  /** A character other than NUL gets a backslash exactly if leaving it bare, in a user name that is otherwise
      made of ordinary characters, would not give a legal attribute value. */
  lemma EscapedExactly(c: char, before: nat, after: nat)
    requires c != '\0'
    ensures Escaped(c, before, before + 1 + after) <==> !Conforms(Xs(before) + [c] + Xs(after))
  {
    assert Xs(before) + [c] + Xs(after) == Xs(before) + ([c] + Xs(after));
    XsConform(before, [c] + Xs(after));
    XsAfter(c, after);
  }
}
