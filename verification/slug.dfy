/**
 * The slug a new post gets from its title (the `create` handler):
 *
 *   title.split(' ').join('-').toLowerCase().replace(/[^a-zA-Z0-9-]/g, '')
 *
 * Each stage is modelled as written: splitting on the single character ' ',
 * joining the pieces with '-', lower-casing (ASCII) and dropping every
 * character outside [a-zA-Z0-9-]. `SlugOf` is an independent per-character
 * definition, and the contract of `Slugify` says the chain equals it.
 */
module Slug {

  predicate IsUpper(c: char) { 'A' <= c <= 'Z' }
  predicate IsLower(c: char) { 'a' <= c <= 'z' }
  predicate IsDigit(c: char) { '0' <= c <= '9' }

  /** The character class [a-zA-Z0-9-] that the final `replace` keeps. */
  predicate IsKept(c: char) { IsUpper(c) || IsLower(c) || IsDigit(c) || c == '-' }

  /** The characters a slug may contain: [a-z0-9-]. */
  predicate IsSlugChar(c: char) { IsLower(c) || IsDigit(c) || c == '-' }

  predicate IsSlugString(s: string) { forall i :: 0 <= i < |s| ==> IsSlugChar(s[i]) }

  /** Number of occurrences of `c` in `s`. */
  function Count(s: string, c: char): nat {
    if s == [] then 0 else (if s[0] == c then 1 else 0) + Count(s[1..], c)
  }

  // ---------------------------------------------------------------------
  // String.prototype.split with a one-character separator, and Array.join

  /**
   * `s.split(sep)`: the maximal pieces of `s` between occurrences of `sep`.
   * There is always at least one piece; "" splits into [""].
   */
  function Split(s: string, sep: char): (parts: seq<string>)
    ensures |parts| >= 1
    decreases |s|
  {
    if s == [] then [""]
    else
      var rest := Split(s[1..], sep);
      if s[0] == sep then [""] + rest
      else [[s[0]] + rest[0]] + rest[1..]
  }

  /**
   * `parts.join([sep])`. Splitting the result on `sep` gives back every
   * non-empty list of pieces that do not contain `sep`.
   */
  function Join(parts: seq<string>, sep: char): (s: string)
    ensures |parts| >= 1 && (forall i :: 0 <= i < |parts| ==> sep !in parts[i])
      ==> Split(s, sep) == parts
    decreases |parts|
  {
    if |parts| == 0 then ""
    else if |parts| == 1 then
      SplitOfPiece(parts[0], sep);
      parts[0]
    else
      var rest := Join(parts[1..], sep);
      assert forall i :: 0 <= i < |parts[1..]| ==> parts[1..][i] == parts[i + 1];
      SplitAfterPiece(parts[0], sep, rest);
      assert [parts[0]] + parts[1..] == parts;
      parts[0] + [sep] + rest
  }

  /** A string without the separator splits into itself alone. */
  lemma {:induction false} SplitOfPiece(p: string, sep: char)
    ensures sep !in p ==> Split(p, sep) == [p]
  {
    if p != [] && sep !in p {
      assert sep !in p[1..];
      SplitOfPiece(p[1..], sep);
      assert [p[0]] + p[1..] == p;
    }
  }

  /** A separator-free piece followed by the separator splits off as one piece. */
  lemma {:induction false} SplitAfterPiece(p: string, sep: char, t: string)
    ensures sep !in p ==> Split(p + [sep] + t, sep) == [p] + Split(t, sep)
  {
    if sep !in p {
      if p == [] {
        assert p + [sep] + t == [sep] + t;
        assert ([sep] + t)[1..] == t;
      } else {
        assert (p + [sep] + t)[1..] == p[1..] + [sep] + t;
        assert sep !in p[1..];
        SplitAfterPiece(p[1..], sep, t);
        assert [p[0]] + p[1..] == p;
      }
    }
  }

  /** `s` with every occurrence of `c` replaced by `d`. */
  function Replace(s: string, c: char, d: char): string {
    if s == [] then [] else [if s[0] == c then d else s[0]] + Replace(s[1..], c, d)
  }

  /** No piece of a split contains the separator. */
  lemma {:induction false} SplitPiecesAvoidSeparator(s: string, sep: char)
    ensures forall i :: 0 <= i < |Split(s, sep)| ==> sep !in Split(s, sep)[i]
  {
    if s != [] {
      SplitPiecesAvoidSeparator(s[1..], sep);
    }
  }

  /** Splitting on `sep` yields one more piece than there are separators. */
  lemma {:induction false} SplitPieceCount(s: string, sep: char)
    ensures |Split(s, sep)| == Count(s, sep) + 1
  {
    if s != [] {
      SplitPieceCount(s[1..], sep);
    }
  }

  lemma JoinExtendHead(x: char, parts: seq<string>, sep: char)
    requires |parts| >= 1
    ensures Join([[x] + parts[0]] + parts[1..], sep) == [x] + Join(parts, sep)
  {
    var ps := [[x] + parts[0]] + parts[1..];
    if |parts| > 1 {
      assert ps[1..] == parts[1..];
    }
  }

  /** Joining the pieces of a split with a different separator replaces it. */
  lemma {:induction false} JoinSplitIsReplace(s: string, c: char, d: char)
    ensures Join(Split(s, c), d) == Replace(s, c, d)
  {
    if s != [] {
      var rest := Split(s[1..], c);
      JoinSplitIsReplace(s[1..], c, d);
      if s[0] == c {
        assert ([""] + rest)[1..] == rest;
      } else {
        JoinExtendHead(s[0], rest, d);
      }
    }
  }

  /** Joining the pieces with the separator itself gives `s` back. */
  lemma JoinSplitRoundTrip(s: string, sep: char)
    ensures Join(Split(s, sep), sep) == s
  {
    JoinSplitIsReplace(s, sep, sep);
    ReplaceSame(s, sep);
  }

  lemma {:induction false} ReplaceSame(s: string, c: char)
    ensures Replace(s, c, c) == s
  {
    if s != [] {
      ReplaceSame(s[1..], c);
    }
  }

  // ---------------------------------------------------------------------
  // toLowerCase and the final replace, on ASCII

  function LowerChar(c: char): char {
    if IsUpper(c) then (c as int + 32) as char else c
  }

  /** `s.toLowerCase()` on ASCII letters; every other character is left alone. */
  function ToLower(s: string): string {
    if s == [] then [] else [LowerChar(s[0])] + ToLower(s[1..])
  }

  /** Lower-casing maps each character on its own and leaves no upper-case letter. */
  lemma {:induction false} ToLowerLowers(s: string)
    ensures |ToLower(s)| == |s|
    ensures forall i :: 0 <= i < |s| ==> ToLower(s)[i] == LowerChar(s[i])
    ensures forall i :: 0 <= i < |s| ==> !IsUpper(ToLower(s)[i])
  {
    if s != [] {
      ToLowerLowers(s[1..]);
      var r := ToLower(s);
      assert r == [LowerChar(s[0])] + ToLower(s[1..]);
      forall i | 0 < i < |s| ensures r[i] == LowerChar(s[i]) {
        assert r[i] == ToLower(s[1..])[i - 1];
      }
    }
  }

  /**
   * `s.replace(/[^a-zA-Z0-9-]/g, '')`: only characters of the class remain,
   * and each of them as often as in `s`.
   */
  function KeepAllowed(s: string): (r: string)
    ensures |r| <= |s|
    ensures forall i :: 0 <= i < |r| ==> IsKept(r[i])
    ensures forall c :: IsKept(c) ==> Count(r, c) == Count(s, c)
  {
    if s == [] then []
    else
      var head, rest := if IsKept(s[0]) then [s[0]] else [], KeepAllowed(s[1..]);
      assert forall c :: Count(head + rest, c) == Count(head, c) + Count(rest, c) by {
        forall c { CountConcat(head, rest, c); }
      }
      head + rest
  }

  /** The removal works piecewise, so the surviving characters keep their order ... */
  lemma {:induction false} KeepAllowedConcat(a: string, b: string)
    ensures KeepAllowed(a + b) == KeepAllowed(a) + KeepAllowed(b)
  {
    if a == [] {
      assert a + b == b;
    } else {
      assert (a + b)[0] == a[0] && (a + b)[1..] == a[1..] + b;
      KeepAllowedConcat(a[1..], b);
    }
  }

  /** ... one character at a time: a character of the class stays, any other goes. */
  lemma KeepAllowedChar(c: char)
    ensures KeepAllowed([c]) == if IsKept(c) then [c] else []
  {
    assert [c][1..] == [];
  }

  /**
   * The slug exactly as the handler computes it. It equals the
   * per-character rule `SlugOf`: a space becomes '-', an upper-case letter
   * its lower case, [a-z0-9-] stays, everything else is dropped, in order.
   * So it is made of [a-z0-9-] and no longer than the title.
   */
  function Slugify(title: string): (slug: string)
    ensures slug == SlugOf(title)
    ensures IsSlugString(slug) && |slug| <= |title|
  {
    JoinSplitIsReplace(title, ' ', '-');
    LowerReplaceKeep(title);
    SlugOfShape(title);
    KeepAllowed(ToLower(Join(Split(title, ' '), '-')))
  }

  // ---------------------------------------------------------------------
  // Reference definition, one character at a time

  /** What one title character contributes to the slug. */
  function SlugOfChar(c: char): string {
    if c == ' ' then "-"
    else if IsUpper(c) then [LowerChar(c)]
    else if IsLower(c) || IsDigit(c) || c == '-' then [c]
    else ""
  }

  function SlugOf(title: string): string {
    if title == [] then [] else SlugOfChar(title[0]) + SlugOf(title[1..])
  }

  lemma {:induction false} LowerReplaceKeep(s: string)
    ensures KeepAllowed(ToLower(Replace(s, ' ', '-'))) == SlugOf(s)
  {
    if s != [] {
      var r := Replace(s, ' ', '-');
      assert r[0] == (if s[0] == ' ' then '-' else s[0]);
      assert r[1..] == Replace(s[1..], ' ', '-');
      var l := ToLower(r);
      assert l[1..] == ToLower(r[1..]);
      LowerReplaceKeep(s[1..]);
    }
  }

  // ---------------------------------------------------------------------
  // Properties

  lemma {:induction false} SlugOfConcat(a: string, b: string)
    ensures SlugOf(a + b) == SlugOf(a) + SlugOf(b)
  {
    if a != [] {
      assert (a + b)[0] == a[0];
      assert (a + b)[1..] == a[1..] + b;
      SlugOfConcat(a[1..], b);
    } else {
      assert a + b == b;
    }
  }

  /** Each character of the title is handled on its own: slugs concatenate. */
  lemma SlugConcat(a: string, b: string)
    ensures Slugify(a + b) == Slugify(a) + Slugify(b)
  {
    SlugOfConcat(a, b);
  }

  lemma {:induction false} SlugOfShape(title: string)
    ensures IsSlugString(SlugOf(title))
    ensures |SlugOf(title)| <= |title|
  {
    if title != [] {
      SlugOfShape(title[1..]);
      var h, t := SlugOfChar(title[0]), SlugOf(title[1..]);
      assert forall i :: 0 <= i < |h| ==> IsSlugChar(h[i]);
      assert forall i :: |h| <= i < |h + t| ==> (h + t)[i] == t[i - |h|];
    }
  }

  lemma {:induction false} CountConcat(a: string, b: string, c: char)
    ensures Count(a + b, c) == Count(a, c) + Count(b, c)
  {
    if a != [] {
      assert (a + b)[1..] == a[1..] + b;
      CountConcat(a[1..], b, c);
    } else {
      assert a + b == b;
    }
  }

  lemma {:induction false} SlugOfHyphens(title: string)
    ensures Count(SlugOf(title), '-') == Count(title, ' ') + Count(title, '-')
  {
    if title != [] {
      SlugOfHyphens(title[1..]);
      CountConcat(SlugOfChar(title[0]), SlugOf(title[1..]), '-');
    }
  }

  /** Every space becomes exactly one '-', and every '-' of the title is kept. */
  lemma SlugHyphenCount(title: string)
    ensures Count(Slugify(title), '-') == Count(title, ' ') + Count(title, '-')
  {
    SlugOfHyphens(title);
  }

  /** Letters and digits survive, in order, and nothing else but hyphens is added. */
  lemma {:induction false} SlugOfFixesSlugStrings(s: string)
    requires IsSlugString(s)
    ensures SlugOf(s) == s
  {
    if s != [] {
      assert IsSlugChar(s[0]);
      SlugOfFixesSlugStrings(s[1..]);
    }
  }

  /** A string already in slug form is its own slug. */
  lemma SlugOfSlugString(s: string)
    requires IsSlugString(s)
    ensures Slugify(s) == s
  {
    SlugOfFixesSlugStrings(s);
  }

  /** Deriving the slug twice gives the same slug as deriving it once. */
  lemma SlugIdempotent(title: string)
    ensures Slugify(Slugify(title)) == Slugify(title)
  {
    SlugOfSlugString(Slugify(title));
  }

  lemma SlugEmpty()
    ensures Slugify("") == ""
  {
  }

  lemma SlugOfWord(w: string, lower: string)
    requires |w| == |lower|
    requires forall i :: 0 <= i < |w| ==> (IsUpper(w[i]) || IsLower(w[i])) && lower[i] == LowerChar(w[i])
    ensures SlugOf(w) == lower
  {
    if w != [] {
      SlugOfWord(w[1..], lower[1..]);
    }
  }

  /** Two words of letters around one space, then characters the slug drops. */
  lemma SlugOfTwoWords(a: string, b: string, tail: string, la: string, lb: string)
    requires |a| == |la| && forall i :: 0 <= i < |a| ==> (IsUpper(a[i]) || IsLower(a[i])) && la[i] == LowerChar(a[i])
    requires |b| == |lb| && forall i :: 0 <= i < |b| ==> (IsUpper(b[i]) || IsLower(b[i])) && lb[i] == LowerChar(b[i])
    requires SlugOf(tail) == ""
    ensures SlugOf(a + " " + b + tail) == la + "-" + lb
  {
    SlugOfWord(a, la);
    SlugOfWord(b, lb);
    SlugOfConcat(a + " " + b, tail);
    SlugOfConcat(a + " ", b);
    SlugOfConcat(a, " ");
    assert SlugOf(" ") == "-";
    assert la + "-" + lb + "" == la + "-" + lb;
  }

  lemma SlugOfHelloWorldPieces()
    ensures SlugOf("Hello" + " " + "World" + "!!!") == "hello" + "-" + "world"
  {
    assert SlugOf("!!!") == "";
    SlugOfTwoWords("Hello", "World", "!!!", "hello", "world");
  }

  lemma SlugOfHelloWorld()
    ensures SlugOf("Hello World!!!") == "hello-world"
  {
    SlugOfHelloWorldPieces();
    assert "Hello" + " " + "World" + "!!!" == "Hello World!!!";
    assert "hello" + "-" + "world" == "hello-world";
  }

  lemma SlugHelloWorld()
    ensures Slugify("Hello World!!!") == "hello-world"
  {
    SlugOfHelloWorld();
  }

  /** Two consecutive spaces give two hyphens: single spaces are the unit. */
  lemma SlugDoubleSpace()
    ensures Slugify("a  b") == "a--b"
  {
    assert SlugOf("a  b") == "a--b";
  }
}
