/** The tokenizer of the hashing embedder (`grams` in backend/internal/llmgw/memstore.go): one pass
    with two buffers, against a specification that splits the text into maximal runs. */
module Tokenizer {

  datatype Class = Cjk | Word | Separator

  predicate IsCjkRune(r: char) {
    ('\U{4E00}' <= r <= '\U{9FFF}') || ('\U{3400}' <= r <= '\U{4DBF}')
    || ('\U{3040}' <= r <= '\U{30FF}') || ('\U{AC00}' <= r <= '\U{D7AF}')
  }

  predicate IsWordRune(r: char) {
    ('a' <= r <= 'z') || ('A' <= r <= 'Z') || ('0' <= r <= '9')
  }

  function ClassOf(r: char): Class {
    if IsCjkRune(r) then Cjk else if IsWordRune(r) then Word else Separator
  }

  // ---- specification: maximal runs ----

  predicate Uniform(s: string, k: Class) {
    forall i | 0 <= i < |s| :: ClassOf(s[i]) == k
  }

  /** Length of the longest prefix whose characters all have the class `k`. */
  function RunLength(s: string, k: Class): (n: nat)
    ensures n <= |s| && Uniform(s[..n], k) && (n < |s| ==> ClassOf(s[n]) != k)
  {
    if s == [] || ClassOf(s[0]) != k then 0
    else
      var n := 1 + RunLength(s[1..], k);
      assert forall i | 1 <= i < n :: s[i] == s[1..][..n - 1][i - 1];
      n
  }

  /** A run of length one stands for itself, a longer one for its overlapping pairs. */
  function Bigrams(run: string): seq<string> {
    if |run| <= 1 then (if run == [] then [] else [run])
    else seq(|run| - 1, i requires 0 <= i < |run| - 1 => run[i..i + 2])
  }

  function Emit(run: string, k: Class): seq<string> {
    match k
    case Cjk => Bigrams(run)
    case Word => [run]
    case Separator => []
  }

  /** Split into maximal runs; a word run is one gram, a CJK run its bigrams, the rest is dropped. */
  function GramsOf(s: string): seq<string>
    decreases |s|
  {
    if s == [] then []
    else
      var k := ClassOf(s[0]);
      var n := RunLength(s, k);
      Emit(s[..n], k) + GramsOf(s[n..])
  }

  // ---- the one-pass algorithm ----

  /** The grams of a word buffer when it is flushed. */
  function Flushed(latin: string): seq<string> {
    if latin == [] then [] else [latin]
  }

  method FlushLatin(output: seq<string>, latin: string) returns (r: seq<string>)
    ensures r == output + Flushed(latin)
  {
    r := output;
    if |latin| > 0 {
      r := r + [latin];
    }
  }

  method FlushCjk(output: seq<string>, cjk: string) returns (r: seq<string>)
    ensures r == output + Bigrams(cjk)
  {
    r := output;
    if |cjk| == 1 {
      r := r + [cjk];
    }
    var i := 0;
    while i + 1 < |cjk|
      invariant 0 <= i && (|cjk| >= 2 ==> i < |cjk|)
      invariant |cjk| >= 2 ==> r == output + Bigrams(cjk)[..i]
      invariant |cjk| <= 1 ==> i == 0 && r == output + Bigrams(cjk)
    {
      r := r + [cjk[i..i + 2]];
      i := i + 1;
    }
  }

  /** The buffers never both hold something, and each holds characters of its own class. */
  predicate Buffers(latin: string, cjk: string) {
    (latin == [] || cjk == []) && Uniform(latin, Word) && Uniform(cjk, Cjk)
  }

  method Grams(s: string) returns (output: seq<string>)
    ensures output == GramsOf(s)
  {
    hide GramsOf, Bigrams, Flushed, IsCjkRune, IsWordRune;
    output := [];
    var latin, cjk := "", "";
    assert "" + "" + s[0..] == s;
    for i := 0 to |s|
      invariant Buffers(latin, cjk)
      invariant GramsOf(s) == output + GramsOf(latin + cjk + s[i..])
    {
      var r := s[i];
      ghost var rest := s[i + 1..];
      assert s[i..] == [r] + rest;
      if IsCjkRune(r) {
        TakeCjk(output, latin, cjk, r, rest);
        output := FlushLatin(output, latin);
        latin := "";
        cjk := cjk + [r];
        assert latin + cjk + rest == cjk + rest;
      } else if IsWordRune(r) {
        TakeWord(output, latin, cjk, r, rest);
        output := FlushCjk(output, cjk);
        cjk := "";
        latin := latin + [r];
        assert latin + cjk + rest == latin + rest;
      } else {
        TakeSeparator(output, latin, cjk, r, rest);
        output := FlushLatin(output, latin);
        latin := "";
        output := FlushCjk(output, cjk);
        cjk := "";
        assert latin + cjk + rest == rest;
      }
    }
    FlushBoth(output, latin, cjk, []);
    assert latin + cjk + s[|s|..] == latin + cjk + [];
    NoGrams();
    output := FlushLatin(output, latin);
    output := FlushCjk(output, cjk);
  }

  lemma NoGrams()
    ensures GramsOf([]) == []
  {
  }

  lemma FlushWord(latin: string, rest: string)
    requires Uniform(latin, Word) && (rest == [] || ClassOf(rest[0]) != Word)
    ensures GramsOf(latin + rest) == Flushed(latin) + GramsOf(rest)
  {
    hide GramsOf;
    if latin == [] {
      assert latin + rest == rest;
    } else {
      RunEnds(latin, Word, rest);
    }
  }

  lemma FlushRun(cjk: string, rest: string)
    requires Uniform(cjk, Cjk) && (rest == [] || ClassOf(rest[0]) != Cjk)
    ensures GramsOf(cjk + rest) == Bigrams(cjk) + GramsOf(rest)
  {
    hide GramsOf;
    if cjk == [] {
      assert cjk + rest == rest;
    } else {
      RunEnds(cjk, Cjk, rest);
    }
  }

  lemma FlushBoth(output: seq<string>, latin: string, cjk: string, rest: string)
    requires Buffers(latin, cjk) && (rest == [] || ClassOf(rest[0]) == Separator)
    ensures output + GramsOf(latin + cjk + rest) == output + Flushed(latin) + Bigrams(cjk) + GramsOf(rest)
  {
    hide GramsOf;
    if latin == [] {
      assert latin + cjk + rest == cjk + rest;
      FlushRun(cjk, rest);
    } else {
      assert latin + cjk + rest == latin + rest;
      FlushWord(latin, rest);
    }
  }

  // Taking one character into the buffers keeps what output, buffers and remaining text stand for.

  lemma TakeCjk(output: seq<string>, latin: string, cjk: string, r: char, rest: string)
    requires Buffers(latin, cjk) && IsCjkRune(r)
    ensures output + GramsOf(latin + cjk + ([r] + rest))
         == output + Flushed(latin) + GramsOf(cjk + [r] + rest)
  {
    hide GramsOf;
    if latin == [] {
      assert latin + cjk + ([r] + rest) == cjk + [r] + rest;
    } else {
      assert latin + cjk + ([r] + rest) == latin + ([r] + rest) && cjk + [r] + rest == [r] + rest;
      FlushWord(latin, [r] + rest);
    }
  }

  lemma TakeWord(output: seq<string>, latin: string, cjk: string, r: char, rest: string)
    requires Buffers(latin, cjk) && ClassOf(r) == Word
    ensures output + GramsOf(latin + cjk + ([r] + rest))
         == output + Bigrams(cjk) + GramsOf(latin + [r] + rest)
  {
    hide GramsOf;
    if cjk == [] {
      assert latin + cjk + ([r] + rest) == latin + [r] + rest;
    } else {
      assert latin + cjk + ([r] + rest) == cjk + ([r] + rest) && latin + [r] + rest == [r] + rest;
      FlushRun(cjk, [r] + rest);
    }
  }

  lemma TakeSeparator(output: seq<string>, latin: string, cjk: string, r: char, rest: string)
    requires Buffers(latin, cjk) && ClassOf(r) == Separator
    ensures output + GramsOf(latin + cjk + ([r] + rest))
         == output + Flushed(latin) + Bigrams(cjk) + GramsOf(rest)
  {
    hide GramsOf;
    FlushBoth(output, latin, cjk, [r] + rest);
    SkipSeparator(r, rest);
  }

  lemma {:induction false} RunLengthIs(run: string, k: Class, rest: string)
    requires Uniform(run, k) && (rest == [] || ClassOf(rest[0]) != k)
    ensures RunLength(run + rest, k) == |run|
    decreases |run|
  {
    if run == [] {
      assert run + rest == rest;
    } else {
      RunLengthIs(run[1..], k, rest);
      assert (run + rest)[1..] == run[1..] + rest;
    }
  }

  lemma RunEnds(run: string, k: Class, rest: string)
    requires run != [] && Uniform(run, k) && (rest == [] || ClassOf(rest[0]) != k)
    ensures GramsOf(run + rest) == Emit(run, k) + GramsOf(rest)
  {
    RunLengthIs(run, k, rest);
    var s := run + rest;
    assert ClassOf(s[0]) == k && s[..|run|] == run && s[|run|..] == rest;
  }

  lemma RunLengthCons(r: char, rest: string, k: Class)
    ensures RunLength([r] + rest, k) == if ClassOf(r) == k then 1 + RunLength(rest, k) else 0
  {
    hide ClassOf, Uniform;
    assert ([r] + rest)[1..] == rest;
  }

  /** A run of separators gives no grams. */
  lemma DropSeparators(s: string)
    requires s != [] && ClassOf(s[0]) == Separator
    ensures GramsOf(s) == GramsOf(s[RunLength(s, Separator)..])
  {
    hide RunLength, ClassOf, Uniform;
    var n := RunLength(s, Separator);
    assert Emit(s[..n], Separator) == [];
  }

  lemma NoSeparators(s: string)
    requires s == [] || ClassOf(s[0]) != Separator
    ensures s[RunLength(s, Separator)..] == s
  {
    hide ClassOf, Uniform;
  }

  lemma SkipSeparator(r: char, rest: string)
    requires ClassOf(r) == Separator
    ensures GramsOf([r] + rest) == GramsOf(rest)
  {
    hide GramsOf, ClassOf, Uniform, RunLength;
    var m := RunLength(rest, Separator);
    RunLengthCons(r, rest, Separator);
    DropSeparators([r] + rest);
    assert ([r] + rest)[1 + m..] == rest[m..];
    if rest != [] && ClassOf(rest[0]) == Separator {
      DropSeparators(rest);
    } else {
      NoSeparators(rest);
    }
  }

  /** Two texts can be tokenized apart when their boundary is a run boundary. */
  predicate Separable(a: string, b: string) {
    a == [] || b == [] || ClassOf(a[|a| - 1]) != ClassOf(b[0]) || ClassOf(b[0]) == Separator
  }

  /** A run at the head of a text is not empty, and what follows it is of another class. */
  lemma HeadRun(a: string, k: Class, n: nat)
    requires a != [] && k == ClassOf(a[0]) && n == RunLength(a, k)
    ensures 1 <= n <= |a| && Uniform(a[..n], k) && (a[n..] == [] || ClassOf(a[n..][0]) != k)
  {
    RunNotEmpty(a);
    hide ClassOf, Uniform, RunLength;
    if n < |a| {
      assert a[n..][0] == a[n];
    } else {
      assert a[n..] == [];
    }
  }

  lemma Halves(a: string, n: nat)
    requires n <= |a|
    ensures a == a[..n] + a[n..]
  {
  }

  lemma RunNotEmpty(a: string)
    requires a != []
    ensures RunLength(a, ClassOf(a[0])) >= 1
  {
    hide ClassOf, Uniform;
  }

  /** If tokenizing apart works behind the head run, it works with it. */
  lemma ConcatRun(a: string, b: string, n: nat)
    requires a != [] && b != [] && Separable(a, b) && ClassOf(a[0]) != Separator && n == RunLength(a, ClassOf(a[0]))
    requires GramsOf(a[n..] + b) == GramsOf(a[n..]) + GramsOf(b)
    ensures GramsOf(a + b) == GramsOf(a) + GramsOf(b)
  {
    hide GramsOf, RunLength, Emit, ClassOf, Separable, Uniform;
    var k := ClassOf(a[0]);
    HeadRun(a, k, n);
    Halves(a, n);
    PeelRun(a, b, k, a[..n], a[n..]);
    Regroup(Emit(a[..n], k), GramsOf(a[n..]), GramsOf(b));
  }

  /** Tokenizing in two parts gives the grams of the whole text. */
  lemma {:induction false} GramsConcat(a: string, b: string)
    requires Separable(a, b)
    ensures GramsOf(a + b) == GramsOf(a) + GramsOf(b)
    decreases |a|
  {
    hide GramsOf, RunLength, ClassOf, Separable, Uniform;
    if a == [] {
      NoGrams();
      assert a + b == b;
    } else if b == [] {
      NoGrams();
      assert a + b == a;
    } else if ClassOf(a[0]) == Separator {
      SeparableTail(a, b, 1);
      GramsConcat(a[1..], b);
      PeelSeparator(a, b);
    } else {
      var n := RunLength(a, ClassOf(a[0]));
      HeadRun(a, ClassOf(a[0]), n);
      SeparableTail(a, b, n);
      GramsConcat(a[n..], b);
      ConcatRun(a, b, n);
    }
  }

  lemma Regroup(x: seq<string>, y: seq<string>, z: seq<string>)
    ensures x + (y + z) == x + y + z
  {
  }

  lemma SeparableTail(a: string, b: string, n: nat)
    requires Separable(a, b) && n <= |a|
    ensures Separable(a[n..], b)
  {
  }

  lemma PeelSeparator(a: string, b: string)
    requires a != [] && ClassOf(a[0]) == Separator
    ensures GramsOf(a) == GramsOf(a[1..]) && GramsOf(a + b) == GramsOf(a[1..] + b)
  {
    hide GramsOf;
    assert a + b == [a[0]] + (a[1..] + b) && a == [a[0]] + a[1..];
    SkipSeparator(a[0], a[1..] + b);
    SkipSeparator(a[0], a[1..]);
  }

  lemma PeelRun(a: string, b: string, k: Class, run: string, tail: string)
    requires a == run + tail && run != [] && Uniform(run, k) && b != [] && Separable(a, b) && k != Separator
    requires tail == [] || ClassOf(tail[0]) != k
    ensures GramsOf(a) == Emit(run, k) + GramsOf(tail)
    ensures GramsOf(a + b) == Emit(run, k) + GramsOf(tail + b)
  {
    hide GramsOf, Emit;
    RunEnds(run, k, tail);
    assert a + b == run + (tail + b);
    if tail == [] {
      assert tail + b == b && a[|a| - 1] == run[|run| - 1];
    }
    RunEnds(run, k, tail + b);
  }

  /** grams(a ++ sep ++ b) = grams(a) ++ grams(b) for any separator character. */
  lemma GramsAcrossSeparator(a: string, sep: char, b: string)
    requires ClassOf(sep) == Separator
    ensures GramsOf(a + [sep] + b) == GramsOf(a) + GramsOf(b)
  {
    assert a + [sep] + b == a + ([sep] + b);
    GramsConcat(a, [sep] + b);
    SkipSeparator(sep, b);
  }

  // ---- the classes, by code point ----

  /** CJK ideographs, kana and Hangul syllables. */
  predicate IsIdeograph(p: int) {
    0x4E00 <= p <= 0x9FFF || 0x3400 <= p <= 0x4DBF || 0x3040 <= p <= 0x30FF || 0xAC00 <= p <= 0xD7AF
  }

  /** ASCII digits and letters. */
  predicate IsAlphanumeric(p: int) {
    0x30 <= p <= 0x39 || 0x41 <= p <= 0x5A || 0x61 <= p <= 0x7A
  }

  lemma ClassByPoint(c: char)
    ensures ClassOf(c) == if IsIdeograph(c as int) then Cjk else if IsAlphanumeric(c as int) then Word else Separator
  {
  }

  lemma UniformGrams(s: string, k: Class)
    requires s != [] && Uniform(s, k)
    ensures GramsOf(s) == Emit(s, k)
  {
    hide ClassOf, GramsOf, RunLength;
    NoGrams();
    assert s + [] == s;
    RunEnds(s, k, []);
  }

  /** A text of ideographs gives each pair of neighbours, a single one itself. */
  lemma IdeographGrams(s: string)
    requires s != [] && forall i | 0 <= i < |s| :: IsIdeograph(s[i] as int)
    ensures if |s| == 1 then GramsOf(s) == [s]
            else |GramsOf(s)| == |s| - 1 && forall i | 0 <= i < |s| - 1 :: GramsOf(s)[i] == [s[i], s[i + 1]]
  {
    UniformByPoint(s, Cjk);
    UniformGrams(s, Cjk);
    hide GramsOf, ClassOf, Uniform;
    assert forall i | 0 <= i < |s| - 1 :: s[i..i + 2] == [s[i], s[i + 1]];
  }

  /** A text of letters and digits is one gram; */
  lemma WordGrams(s: string)
    requires s != [] && forall i | 0 <= i < |s| :: IsAlphanumeric(s[i] as int)
    ensures GramsOf(s) == [s]
  {
    UniformByPoint(s, Word);
    UniformGrams(s, Word);
    hide GramsOf, ClassOf, Uniform;
  }

  /** a text of any other characters gives none. */
  lemma SeparatorGrams(s: string)
    requires forall i | 0 <= i < |s| :: !IsIdeograph(s[i] as int) && !IsAlphanumeric(s[i] as int)
    ensures GramsOf(s) == []
  {
    if s != [] {
      UniformByPoint(s, Separator);
      UniformGrams(s, Separator);
    }
    NoGrams();
    hide GramsOf, ClassOf, Uniform;
  }

  lemma UniformByPoint(s: string, k: Class)
    requires forall i | 0 <= i < |s| ::
               k == if IsIdeograph(s[i] as int) then Cjk else if IsAlphanumeric(s[i] as int) then Word else Separator
    ensures Uniform(s, k)
  {
    forall i | 0 <= i < |s| ensures ClassOf(s[i]) == k {
      ClassByPoint(s[i]);
    }
    hide ClassOf, IsIdeograph, IsAlphanumeric;
  }
}
