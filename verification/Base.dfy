/** Datatypes and string operations that several components share. */
module Base {
  datatype Option<+T> = None | Some(value: T)

  /** Unicode white space, as strings.TrimSpace sees it. */
  predicate IsSpace(c: char) {
    || '\t' <= c <= '\r' || c == ' ' || c == '\U{85}' || c == '\U{A0}' || c == '\U{1680}'
    || '\U{2000}' <= c <= '\U{200A}' || c == '\U{2028}' || c == '\U{2029}' || c == '\U{202F}'
    || c == '\U{205F}' || c == '\U{3000}'
  }

  function TrimLeft(s: string): string {
    if s != [] && IsSpace(s[0]) then TrimLeft(s[1..]) else s
  }

  function TrimRight(s: string): string {
    if s != [] && IsSpace(s[|s| - 1]) then TrimRight(s[..|s| - 1]) else s
  }

  function TrimSpace(s: string): string {
    TrimRight(TrimLeft(s))
  }

  /** Neither end is white space; the empty string qualifies. */
  predicate Trimmed(s: string) {
    s == [] || (!IsSpace(s[0]) && !IsSpace(s[|s| - 1]))
  }

  lemma {:induction false} TrimRightKeepsHead(s: string)
    ensures var r := TrimRight(s); r <= s && (r == [] || !IsSpace(r[|r| - 1]))
    decreases |s|
  {
    if s != [] && IsSpace(s[|s| - 1]) {
      TrimRightKeepsHead(s[..|s| - 1]);
    }
  }

  lemma {:induction false} TrimLeftDropsSpace(s: string)
    ensures var l := TrimLeft(s); l == [] || !IsSpace(l[0])
    decreases |s|
  {
    if s != [] && IsSpace(s[0]) {
      TrimLeftDropsSpace(s[1..]);
    }
  }

  /** TrimSpace returns a trimmed string and leaves exactly the trimmed strings unchanged. */
  lemma TrimSpaceTrims(s: string)
    ensures Trimmed(TrimSpace(s))
    ensures TrimSpace(s) == s <==> Trimmed(s)
  {
    TrimLeftDropsSpace(s);
    TrimRightKeepsHead(TrimLeft(s));
  }

  // ---- the order of identifiers ----

  /** Byte order of identifiers. */
  predicate Less(a: string, b: string) {
    b != [] && (a == [] || a[0] < b[0] || (a[0] == b[0] && Less(a[1..], b[1..])))
  }

  lemma {:induction false} LessIsTotal(a: string, b: string)
    ensures a == b || Less(a, b) || Less(b, a)
    ensures !(Less(a, b) && Less(b, a)) && !Less(a, a)
    decreases |a|
  {
    if a != [] && b != [] && a[0] == b[0] {
      LessIsTotal(a[1..], b[1..]);
      assert a == [a[0]] + a[1..] && b == [b[0]] + b[1..];
    }
    if a != [] {
      LessIsTotal(a[1..], a[1..]);
    }
  }

  /** Position of the first difference: the shorter string ends there, or has the smaller character. */
  predicate DiffersAt(a: string, b: string, i: nat) {
    i <= |a| && i < |b| && a[..i] == b[..i] && (i == |a| || a[i] < b[i])
  }

  lemma DiffersBehind(c: char, a: string, b: string, i: nat)
    ensures DiffersAt([c] + a, [c] + b, i + 1) <==> DiffersAt(a, b, i)
  {
    if i <= |a| && i < |b| {
      assert ([c] + a)[..i + 1] == [c] + a[..i] && ([c] + b)[..i + 1] == [c] + b[..i];
      assert a[..i] == ([c] + a[..i])[1..] && b[..i] == ([c] + b[..i])[1..];
    }
  }

  /** The order is decided at the first difference. */
  lemma {:induction false} LessExactly(a: string, b: string)
    ensures Less(a, b) <==> exists i: nat :: DiffersAt(a, b, i)
    decreases |a|
  {
    if a != [] && b != [] && a[0] == b[0] {
      LessExactly(a[1..], b[1..]);
      assert a == [a[0]] + a[1..] && b == [a[0]] + b[1..];
      forall i: nat ensures DiffersAt(a, b, i + 1) <==> DiffersAt(a[1..], b[1..], i) {
        DiffersBehind(a[0], a[1..], b[1..], i);
      }
      assert !DiffersAt(a, b, 0);
      if i: nat :| DiffersAt(a, b, i) {
        assert DiffersAt(a[1..], b[1..], i - 1);
      }
      if i: nat :| DiffersAt(a[1..], b[1..], i) {
        assert DiffersAt(a, b, i + 1);
      }
    } else {
      FirstDecides(a, b);
    }
  }

  lemma FirstDecides(a: string, b: string)
    requires a == [] || b == [] || a[0] != b[0]
    ensures Less(a, b) <==> exists i: nat :: DiffersAt(a, b, i)
  {
    assert DiffersAt(a, b, 0) <==> b != [] && (a == [] || a[0] < b[0]);
    forall i: nat | i > 0 && i <= |a| && i < |b| ensures a[0] == b[0] || a[..i] != b[..i] {
      assert a[0] == a[..i][0] && b[0] == b[..i][0];
    }
  }

  lemma {:induction false} LessIsTransitive(a: string, b: string, c: string)
    requires Less(a, b) && Less(b, c)
    ensures Less(a, c)
    decreases |a|
  {
    if a != [] && a[0] == b[0] == c[0] {
      LessIsTransitive(a[1..], b[1..], c[1..]);
    }
  }

  /** Every set of identifiers that is not empty has a least one. */
  lemma {:induction false} LeastExists(s: set<string>) returns (least: string)
    requires s != {}
    ensures least in s && forall k | k in s && k != least :: Less(least, k)
    decreases |s|
  {
    least :| least in s;
    if s != {least} {
      var rest := LeastExists(s - {least});
      LessIsTotal(least, rest);
      if Less(rest, least) {
        least := rest;
      } else {
        forall k | k in s && k != least ensures Less(least, k) {
          if k != rest {
            LessIsTransitive(least, rest, k);
          }
        }
      }
    }
  }

  // ---- counting in sequences ----

  function Count<T>(s: seq<T>, p: T -> bool): (n: nat)
    ensures n <= |s|
  {
    if s == [] then 0 else Count(s[..|s| - 1], p) + (if p(s[|s| - 1]) then 1 else 0)
  }

  lemma {:induction false} CountUpdate<T>(s: seq<T>, i: nat, x: T, p: T -> bool)
    requires i < |s|
    ensures Count(s[i := x], p) == Count(s, p) - (if p(s[i]) then 1 else 0) + (if p(x) then 1 else 0)
    decreases |s|
  {
    var t := s[i := x];
    if i == |s| - 1 {
      assert t[..|s| - 1] == s[..|s| - 1];
    } else {
      assert t[..|s| - 1] == s[..|s| - 1][i := x];
      CountUpdate(s[..|s| - 1], i, x, p);
    }
  }

  lemma CountAppend<T>(s: seq<T>, x: T, p: T -> bool)
    ensures Count(s + [x], p) == Count(s, p) + (if p(x) then 1 else 0)
  {
    assert (s + [x])[..|s|] == s;
  }

  lemma {:induction false} CountNone<T>(s: seq<T>, p: T -> bool)
    ensures Count(s, p) == 0 <==> forall i | 0 <= i < |s| :: !p(s[i])
    decreases |s|
  {
    if s != [] {
      CountNone(s[..|s| - 1], p);
      assert forall i | 0 <= i < |s| - 1 :: s[..|s| - 1][i] == s[i];
    }
  }

  // ---- rounding division ----

  lemma MulLess(a: int, b: int, s: int)
    requires s >= 1
    ensures a <= b ==> a * s <= b * s
  {
    if a <= b {
      assert b * s - a * s == (b - a) * s;
    }
  }

  lemma FloorLe(a: int, x: int, s: int)
    requires s >= 1
    ensures a <= x / s <==> a * s <= x
  {
    var q := x / s;
    MulLess(a, q, s);
    MulLess(q + 1, a, s);
    assert (q + 1) * s == q * s + s;
  }
}
