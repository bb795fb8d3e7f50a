/**
 * Topic-name normalisation used for matching a query against the dataset
 * (utils.py:25-27): `re.sub("[^0-9a-zA-Z]+", " ", s).lower().strip()`.
 */
module Text {

  /** The characters matched by the class `[0-9a-zA-Z]`. */
  predicate IsAlnum(c: char) {
    '0' <= c <= '9' || 'a' <= c <= 'z' || 'A' <= c <= 'Z'
  }

  predicate IsLowerAlnum(c: char) {
    '0' <= c <= '9' || 'a' <= c <= 'z'
  }

  /**
   * `str.lower` on one character. After the substitution only ASCII letters,
   * digits and spaces remain, so the ASCII case mapping is all that is needed.
   */
  function Lower(c: char): (d: char)
    ensures IsAlnum(c) ==> IsLowerAlnum(d)
    ensures IsAlnum(d) <==> IsAlnum(c)
    ensures d == ' ' <==> c == ' '
    ensures IsLowerAlnum(c) ==> d == c
  {
    if 'A' <= c <= 'Z' then (c as int + 32) as char else c
  }

  function LowerAll(s: string): string {
    seq(|s|, i requires 0 <= i < |s| => Lower(s[i]))
  }

  /** Drops the run of non-alphanumeric characters at the start of `s`. */
  function SkipSeparators(s: string): (r: string)
    ensures |r| <= |s|
    ensures r == [] || IsAlnum(r[0])
  {
    if s != [] && !IsAlnum(s[0]) then SkipSeparators(s[1..]) else s
  }

  /**
   * `re.sub("[^0-9a-zA-Z]+", " ", s)`: every maximal run of characters
   * outside `[0-9a-zA-Z]` becomes a single space.
   */
  function ReplaceSeparators(s: string): (r: string)
    ensures forall i :: 0 <= i < |r| ==> IsAlnum(r[i]) || r[i] == ' '
    ensures forall i :: 0 < i < |r| ==> !(r[i - 1] == ' ' && r[i] == ' ')
    ensures s == [] <==> r == []
    ensures s != [] ==> r[0] == if IsAlnum(s[0]) then s[0] else ' '
    decreases |s|
  {
    if s == [] then []
    else if IsAlnum(s[0]) then [s[0]] + ReplaceSeparators(s[1..])
    else [' '] + ReplaceSeparators(SkipSeparators(s[1..]))
  }

  /** `str.lstrip` of spaces. */
  function TrimStart(s: string): (r: string)
    ensures |r| <= |s| && r == s[|s| - |r|..]
    ensures forall i :: 0 <= i < |s| - |r| ==> s[i] == ' '
    ensures r == [] || r[0] != ' '
  {
    if s != [] && s[0] == ' ' then TrimStart(s[1..]) else s
  }

  /** `str.rstrip` of spaces. */
  function TrimEnd(s: string): (r: string)
    ensures |r| <= |s| && r == s[..|r|]
    ensures forall i :: |r| <= i < |s| ==> s[i] == ' '
    ensures r == [] || r[|r| - 1] != ' '
  {
    if s != [] && s[|s| - 1] == ' ' then TrimEnd(s[..|s| - 1]) else s
  }

  /**
   * `str.strip`. Its input here holds no whitespace other than the spaces the
   * substitution wrote, so stripping spaces is stripping whitespace.
   */
  function Strip(s: string): string {
    TrimEnd(TrimStart(s))
  }

  /** What a normalised name looks like. */
  predicate IsNormal(s: string) {
    && (forall i :: 0 <= i < |s| ==> IsLowerAlnum(s[i]) || s[i] == ' ')
    && (forall i :: 0 < i < |s| ==> !(s[i - 1] == ' ' && s[i] == ' '))
    && (s != [] ==> s[0] != ' ' && s[|s| - 1] != ' ')
  }

  /** The normal form under which a query and a topic name are compared. */
  function Normalise(s: string): (r: string)
    ensures IsNormal(r)
  {
    var t := LowerAll(ReplaceSeparators(s));
    var r := Strip(t);
    StripKeepsShape(t);
    r
  }

  /** Lower-case letters, digits and single spaces. */
  predicate SpacedWords(t: string) {
    && (forall i :: 0 <= i < |t| ==> IsLowerAlnum(t[i]) || t[i] == ' ')
    && (forall i :: 0 < i < |t| ==> !(t[i - 1] == ' ' && t[i] == ' '))
  }

  lemma SliceKeepsShape(t: string, a: nat, b: nat)
    requires a <= b <= |t| && SpacedWords(t)
    ensures SpacedWords(t[a..b])
  {
    var r := t[a..b];
    forall i | 0 < i < |r|
      ensures !(r[i - 1] == ' ' && r[i] == ' ')
    {
      assert r[i - 1] == t[a + i - 1] && r[i] == t[a + i];
    }
  }

  /** Stripping a text of lower-case letters, digits and single spaces leaves it normal. */
  lemma StripKeepsShape(t: string)
    requires SpacedWords(t)
    ensures IsNormal(Strip(t))
  {
    var u := TrimStart(t);
    SliceKeepsShape(t, |t| - |u|, |t|);
    SliceKeepsShape(u, 0, |TrimEnd(u)|);
  }

  /** The letters and digits of `s`, in order. */
  function Alnums(s: string): string {
    if s == [] then []
    else (if IsAlnum(s[0]) then [s[0]] else []) + Alnums(s[1..])
  }

  lemma {:induction false} AlnumsConcat(a: string, b: string)
    ensures Alnums(a + b) == Alnums(a) + Alnums(b)
  {
    if a != [] {
      var head := if IsAlnum(a[0]) then [a[0]] else [];
      assert (a + b)[0] == a[0];
      assert (a + b)[1..] == a[1..] + b;
      AlnumsConcat(a[1..], b);
      calc {
        Alnums(a + b);
        head + Alnums(a[1..] + b);
        head + (Alnums(a[1..]) + Alnums(b));
        (head + Alnums(a[1..])) + Alnums(b);
      }
    } else {
      assert a + b == b;
    }
  }

  lemma {:induction false} AlnumsSkip(s: string)
    ensures Alnums(SkipSeparators(s)) == Alnums(s)
  {
    if s != [] && !IsAlnum(s[0]) {
      AlnumsSkip(s[1..]);
    }
  }

  lemma {:induction false} AlnumsReplace(s: string)
    ensures Alnums(ReplaceSeparators(s)) == Alnums(s)
    decreases |s|
  {
    if s == [] {
    } else if IsAlnum(s[0]) {
      AlnumsReplace(s[1..]);
      AlnumsConcat([s[0]], ReplaceSeparators(s[1..]));
    } else {
      var t := SkipSeparators(s[1..]);
      AlnumsReplace(t);
      AlnumsSkip(s[1..]);
      AlnumsConcat([' '], ReplaceSeparators(t));
    }
  }

  lemma {:induction false} AlnumsLower(s: string)
    ensures Alnums(LowerAll(s)) == LowerAll(Alnums(s))
  {
    if s != [] {
      assert LowerAll(s)[1..] == LowerAll(s[1..]);
      AlnumsLower(s[1..]);
      assert LowerAll(Alnums(s)) == LowerAll(if IsAlnum(s[0]) then [s[0]] else []) + LowerAll(Alnums(s[1..]));
    }
  }

  lemma {:induction false} AlnumsTrimStart(s: string)
    ensures Alnums(TrimStart(s)) == Alnums(s)
  {
    if s != [] && s[0] == ' ' {
      AlnumsTrimStart(s[1..]);
    }
  }

  lemma {:induction false} AlnumsTrimEnd(s: string)
    ensures Alnums(TrimEnd(s)) == Alnums(s)
  {
    if s != [] && s[|s| - 1] == ' ' {
      var init := s[..|s| - 1];
      AlnumsTrimEnd(init);
      assert s == init + [' '];
      AlnumsConcat(init, [' ']);
      assert Alnums([' ']) == [];
    }
  }

  lemma AlnumsStrip(s: string)
    ensures Alnums(Strip(s)) == Alnums(s)
  {
    AlnumsTrimStart(s);
    AlnumsTrimEnd(TrimStart(s));
  }

  /**
   * Normalisation keeps every letter and digit of the name, in order and
   * lower-cased, and only rewrites what separates them.
   */
  lemma NormaliseKeepsAlnums(s: string)
    ensures Alnums(Normalise(s)) == LowerAll(Alnums(s))
  {
    var t := ReplaceSeparators(s);
    AlnumsReplace(s);
    AlnumsLower(t);
    AlnumsStrip(LowerAll(t));
  }

  lemma {:induction false} ReplaceFixes(s: string)
    requires forall i :: 0 <= i < |s| ==> IsAlnum(s[i]) || s[i] == ' '
    requires forall i :: 0 < i < |s| ==> !(s[i - 1] == ' ' && s[i] == ' ')
    ensures ReplaceSeparators(s) == s
    decreases |s|
  {
    if s == [] {
    } else if IsAlnum(s[0]) {
      ReplaceFixes(s[1..]);
    } else {
      assert s[1..] == [] || IsAlnum(s[1]);
      assert SkipSeparators(s[1..]) == s[1..];
      ReplaceFixes(s[1..]);
    }
  }

  /** A single word of letters and digits normalises to its lower-case spelling. */
  lemma NormaliseWord(s: string)
    requires s != [] && forall i :: 0 <= i < |s| ==> IsAlnum(s[i])
    ensures Normalise(s) == LowerAll(s)
  {
    ReplaceFixes(s);
    var t := LowerAll(s);
    assert t[0] != ' ' && t[|t| - 1] != ' ';
  }

  /** A word whose letters lower-case to `w` normalises to `w`. */
  lemma WordNormalisesTo(s: string, w: string)
    requires s != [] && |s| == |w|
    requires forall i :: 0 <= i < |s| ==> IsAlnum(s[i]) && Lower(s[i]) == w[i]
    ensures Normalise(s) == w
  {
    NormaliseWord(s);
    assert LowerAll(s) == w;
  }

  /** A normal name is its own normal form. */
  lemma NormaliseFixesNormal(s: string)
    requires IsNormal(s)
    ensures Normalise(s) == s
  {
    ReplaceFixes(s);
    assert LowerAll(s) == s;
  }

  /** Normalising twice is normalising once. */
  lemma NormaliseIdempotent(s: string)
    ensures Normalise(Normalise(s)) == Normalise(s)
  {
    NormaliseFixesNormal(Normalise(s));
  }

  // ---------------------------------------------------------------------
  // Where the spaces go: the normal form against the words of the name
  // ---------------------------------------------------------------------

  /** A non-empty run of letters and digits. */
  predicate IsWord(w: string) {
    w != [] && forall i :: 0 <= i < |w| ==> IsAlnum(w[i])
  }

  /** The longest prefix of `s` made of letters and digits. */
  function WordPrefix(s: string): (w: string)
    ensures |w| <= |s| && w == s[..|w|]
    ensures forall i :: 0 <= i < |w| ==> IsAlnum(w[i])
    ensures |w| < |s| ==> !IsAlnum(s[|w|])
    ensures s != [] && IsAlnum(s[0]) ==> w != []
  {
    if s != [] && IsAlnum(s[0]) then
      var v := WordPrefix(s[1..]);
      assert s[..|v| + 1] == [s[0]] + s[1..][..|v|];
      assert |v| + 1 < |s| ==> s[|v| + 1] == s[1..][|v|];
      [s[0]] + v
    else []
  }

  /**
   * The words of a name: its maximal runs of letters and digits, in order,
   * whatever separates them.
   */
  function Words(s: string): (ws: seq<string>)
    ensures forall k :: 0 <= k < |ws| ==> IsWord(ws[k])
    decreases |s|
  {
    if s == [] then []
    else if !IsAlnum(s[0]) then Words(s[1..])
    else
      var w := WordPrefix(s);
      [w] + Words(s[|w|..])
  }

  /** The words separated by single spaces, as `" ".join(ws)`. */
  function JoinWords(ws: seq<string>): string {
    if ws == [] then [] else if |ws| == 1 then ws[0] else ws[0] + " " + JoinWords(ws[1..])
  }

  /** Every word lower-cased. */
  function LowerWords(ws: seq<string>): (vs: seq<string>)
    ensures |vs| == |ws| && forall k :: 0 <= k < |ws| ==> vs[k] == LowerAll(ws[k])
  {
    seq(|ws|, k requires 0 <= k < |ws| => LowerAll(ws[k]))
  }

  lemma {:induction false} ReplaceWordPrefix(w: string, r: string)
    requires forall i :: 0 <= i < |w| ==> IsAlnum(w[i])
    ensures ReplaceSeparators(w + r) == w + ReplaceSeparators(r)
    decreases |w|
  {
    if w == [] {
      assert w + r == r;
    } else {
      assert (w + r)[0] == w[0] && (w + r)[1..] == w[1..] + r;
      ReplaceWordPrefix(w[1..], r);
      assert w == [w[0]] + w[1..];
    }
  }

  lemma {:induction false} SkipRun(sep: string, b: string)
    requires forall i :: 0 <= i < |sep| ==> !IsAlnum(sep[i])
    requires b == [] || IsAlnum(b[0])
    ensures SkipSeparators(sep + b) == b
    decreases |sep|
  {
    if sep == [] {
      assert sep + b == b;
    } else {
      assert (sep + b)[1..] == sep[1..] + b;
      SkipRun(sep[1..], b);
    }
  }

  /** A run of separators in front of a word becomes one space. */
  lemma ReplaceSeparatorRun(sep: string, b: string)
    requires sep != [] && !IsAlnum(sep[0])
    requires SkipSeparators(sep[1..] + b) == b
    ensures ReplaceSeparators(sep + b) == " " + ReplaceSeparators(b)
  {
    var t := sep + b;
    assert t[0] == sep[0] && t[1..] == sep[1..] + b;
  }

  /**
   * A run of separators between a word and the rest of the name becomes
   * exactly one space.
   */
  lemma ReplaceSeparatorsBetween(a: string, sep: string, b: string)
    requires forall i :: 0 <= i < |a| ==> IsAlnum(a[i])
    requires sep != [] && forall i :: 0 <= i < |sep| ==> !IsAlnum(sep[i])
    requires b == [] || IsAlnum(b[0])
    ensures ReplaceSeparators(a + sep + b) == a + " " + ReplaceSeparators(b)
  {
    SkipRun(sep[1..], b);
    ReplaceSeparatorRun(sep, b);
    ReplaceWordPrefix(a, sep + b);
    assert a + sep + b == a + (sep + b);
  }

  /** The words of a name that starts with a letter or digit, and their join. */
  lemma {:induction false} WordsFromWord(t: string)
    requires t != [] && IsAlnum(t[0])
    ensures var w := WordPrefix(t);
      && Words(t) == [w] + Words(t[|w|..])
      && t == w + t[|w|..]
  {
  }

  /** Separators in front of a name change none of its words. */
  lemma {:induction false} WordsSkip(s: string)
    ensures Words(SkipSeparators(s)) == Words(s)
  {
    if s != [] && !IsAlnum(s[0]) {
      WordsSkip(s[1..]);
    }
  }

  lemma {:induction false} WordsSepPrefix(sep: string, b: string)
    requires forall i :: 0 <= i < |sep| ==> !IsAlnum(sep[i])
    ensures Words(sep + b) == Words(b)
  {
    if sep == [] {
      assert sep + b == b;
    } else {
      assert (sep + b)[1..] == sep[1..] + b;
      WordsSepPrefix(sep[1..], b);
    }
  }

  /** `r` is `x` with at most one space before it and at most one after. */
  predicate Padded(r: string, x: string) {
    r == x || r == " " + x || r == x + " " || r == " " + x + " "
  }

  /** A name that starts with a separator: one space, then the rest with the run skipped. */
  lemma ReplaceFromSeparator(r: string)
    requires r != [] && !IsAlnum(r[0])
    ensures ReplaceSeparators(r) == " " + ReplaceSeparators(SkipSeparators(r))
    ensures Words(SkipSeparators(r)) == Words(r)
  {
    WordsSkip(r);
  }

  lemma JoinCons(w: string, ws: seq<string>)
    requires ws != []
    ensures JoinWords([w] + ws) == w + " " + JoinWords(ws)
  {
    assert ([w] + ws)[1..] == ws;
  }

  /** What follows the first word of a name and the separators after it. */
  function AfterWord(t: string): string {
    SkipSeparators(t[|WordPrefix(t)|..])
  }

  /** One word of a name that starts with a letter or digit, in the substitution and in its words. */
  lemma ReplaceWordStep(t: string)
    requires t != [] && IsAlnum(t[0])
    ensures var w, u := WordPrefix(t), AfterWord(t);
      && w != [] && |u| < |t| && (u == [] || IsAlnum(u[0]))
      && Words(t) == [w] + Words(u)
      && (u != [] ==> ReplaceSeparators(t) == w + " " + ReplaceSeparators(u))
      && (u == [] ==> ReplaceSeparators(t) == w || ReplaceSeparators(t) == w + " ")
  {
    var w := WordPrefix(t);
    var r := t[|w|..];
    WordsFromWord(t);
    ReplaceWordPrefix(w, r);
    if r == [] {
      assert ReplaceSeparators(t) == w + [];
    } else {
      assert r[0] == t[|w|];
      ReplaceFromSeparator(r);
      assert ReplaceSeparators(t) == w + (" " + ReplaceSeparators(AfterWord(t)));
    }
  }

  /**
   * After the substitution, a name starting with a letter or digit is its
   * words joined by single spaces, with at most a space after them.
   */
  lemma {:induction false} ReplaceWordsFrom(t: string)
    requires t == [] || IsAlnum(t[0])
    ensures var j := JoinWords(Words(t));
      && (ReplaceSeparators(t) == j || ReplaceSeparators(t) == j + " ")
      && (t == [] <==> j == [])
    decreases |t|
  {
    if t == [] {
      assert Words(t) == [];
    } else {
      var w, u := WordPrefix(t), AfterWord(t);
      ReplaceWordStep(t);
      ReplaceWordsFrom(u);
      if u == [] {
        assert Words(t) == [w];
      } else {
        JoinCons(w, Words(u));
      }
    }
  }

  /** After the substitution, a name is its words joined by single spaces, padded by at most a space on each side. */
  lemma ReplaceAroundWords(s: string)
    ensures Padded(ReplaceSeparators(s), JoinWords(Words(s)))
  {
    if s == [] || IsAlnum(s[0]) {
      ReplaceWordsFrom(s);
    } else {
      var u := SkipSeparators(s);
      assert SkipSeparators(s[1..]) == u;
      WordsSkip(s);
      ReplaceWordsFrom(u);
    }
  }

  /** A join of words starts and ends with a letter or digit. */
  lemma {:induction false} JoinEnds(ws: seq<string>)
    requires forall k :: 0 <= k < |ws| ==> IsWord(ws[k])
    ensures var j := JoinWords(ws);
      && (j == [] <==> ws == [])
      && (j != [] ==> IsAlnum(j[0]) && IsAlnum(j[|j| - 1]))
      && forall i :: 0 <= i < |j| ==> IsAlnum(j[i]) || j[i] == ' '
  {
    if |ws| > 1 {
      JoinEnds(ws[1..]);
      var j, w, rest := JoinWords(ws), ws[0], JoinWords(ws[1..]);
      assert j == w + " " + rest;
      forall i | 0 <= i < |j|
        ensures IsAlnum(j[i]) || j[i] == ' '
      {
        if i > |w| {
          assert j[i] == rest[i - |w| - 1];
        }
      }
    }
  }

  lemma LowerAllConcat(a: string, b: string)
    ensures LowerAll(a + b) == LowerAll(a) + LowerAll(b)
  {
    assert forall i :: 0 <= i < |a + b| ==> LowerAll(a + b)[i] == (LowerAll(a) + LowerAll(b))[i];
  }

  lemma {:induction false} LowerJoin(ws: seq<string>)
    ensures LowerAll(JoinWords(ws)) == JoinWords(LowerWords(ws))
  {
    if |ws| > 1 {
      LowerJoin(ws[1..]);
      assert LowerWords(ws)[1..] == LowerWords(ws[1..]);
      LowerAllConcat(ws[0] + " ", JoinWords(ws[1..]));
      LowerAllConcat(ws[0], " ");
    }
  }

  lemma LowerWordsAreWords(ws: seq<string>)
    requires forall k :: 0 <= k < |ws| ==> IsWord(ws[k])
    ensures forall k :: 0 <= k < |ws| ==> IsWord(LowerWords(ws)[k])
  {
    forall k, i | 0 <= k < |ws| && 0 <= i < |LowerAll(ws[k])|
      ensures IsAlnum(LowerAll(ws[k])[i])
    {
      assert IsAlnum(ws[k][i]);
    }
  }

  lemma TrimStartPad(y: string)
    requires y == [] || y[0] != ' '
    ensures TrimStart(y) == y && TrimStart(" " + y) == y
  {
    assert (" " + y)[1..] == y;
  }

  lemma TrimEndPad(y: string)
    requires y == [] || y[|y| - 1] != ' '
    ensures TrimEnd(y) == y && TrimEnd(y + " ") == y
  {
    assert (y + " ")[..|y|] == y;
  }

  /** Stripping removes the padding and nothing of what it pads. */
  lemma StripPadded(r: string, x: string)
    requires Padded(r, x)
    requires x == [] || (x[0] != ' ' && x[|x| - 1] != ' ')
    ensures Strip(r) == x
  {
    TrimEndPad(x);
    if x == [] {
      TrimStartPad(x);
      assert " " + x == x + " " == " " + [] && " " + x + " " == "  ";
      assert "  "[1..] == " ";
    } else {
      TrimStartPad(x);
      TrimStartPad(x + " ");
      assert " " + x + " " == " " + (x + " ");
    }
  }

  /**
   * The normal form of a name is its words, lower-cased, joined by single
   * spaces: what separates the words, and how much of it, does not matter.
   */
  lemma NormaliseIsJoinedWords(s: string)
    ensures Normalise(s) == JoinWords(LowerWords(Words(s)))
  {
    var ws := Words(s);
    var r, j := ReplaceSeparators(s), JoinWords(ws);
    var lj := JoinWords(LowerWords(ws));
    ReplaceAroundWords(s);
    LowerJoin(ws);
    LowerWordsAreWords(ws);
    JoinEnds(LowerWords(ws));
    LowerAllConcat(" ", j);
    LowerAllConcat(j, " ");
    LowerAllConcat(" " + j, " ");
    assert LowerAll(" ") == " ";
    StripPadded(LowerAll(r), lj);
  }

  lemma {:induction false} JoinShape(ws: seq<string>)
    requires |ws| > 0 && forall k :: 0 <= k < |ws| ==> IsWord(ws[k])
    ensures var j, w := JoinWords(ws), ws[0];
      && |w| <= |j| && j[..|w|] == w
      && (|ws| == 1 <==> |j| == |w|)
      && (|ws| > 1 ==> j[|w|] == ' ' && j[|w| + 1..] == JoinWords(ws[1..]))
  {
    if |ws| > 1 {
      var j, w := JoinWords(ws), ws[0];
      assert j == w + " " + JoinWords(ws[1..]);
      assert j[..|w|] == w;
      assert j[|w| + 1..] == JoinWords(ws[1..]);
    }
  }

  /** Different word sequences have different joins. */
  lemma {:induction false} JoinInjective(ws: seq<string>, vs: seq<string>)
    requires forall k :: 0 <= k < |ws| ==> IsWord(ws[k])
    requires forall k :: 0 <= k < |vs| ==> IsWord(vs[k])
    requires JoinWords(ws) == JoinWords(vs)
    ensures ws == vs
    decreases |ws|
  {
    JoinEnds(ws);
    JoinEnds(vs);
    if ws != [] {
      var j, a, b := JoinWords(ws), ws[0], vs[0];
      JoinShape(ws);
      JoinShape(vs);
      if |a| < |b| {
        assert false;
      } else if |b| < |a| {
        assert false;
      }
      assert a == b;
      if |ws| > 1 {
        JoinInjective(ws[1..], vs[1..]);
        assert ws == [a] + ws[1..] && vs == [b] + vs[1..];
      }
    }
  }

  /**
   * Two names normalise alike exactly when they have the same words up to
   * letter case: the query matches a topic whatever separators either uses.
   */
  lemma SameNormalIffSameWords(s: string, s': string)
    ensures Normalise(s) == Normalise(s') <==> LowerWords(Words(s)) == LowerWords(Words(s'))
  {
    NormaliseIsJoinedWords(s);
    NormaliseIsJoinedWords(s');
    LowerWordsAreWords(Words(s));
    LowerWordsAreWords(Words(s'));
    if Normalise(s) == Normalise(s') {
      JoinInjective(LowerWords(Words(s)), LowerWords(Words(s')));
    }
  }

  /** Two words and the separators between them. */
  lemma WordsOfTwo(a: string, sep: string, b: string)
    requires IsWord(a) && IsWord(b)
    requires sep != [] && forall i :: 0 <= i < |sep| ==> !IsAlnum(sep[i])
    ensures Words(a + sep + b) == [a, b]
  {
    var t := a + sep + b;
    assert t == a + (sep + b);
    WordPrefixOf(a, sep + b);
    WordsFromWord(t);
    assert t[|a|..] == sep + b;
    WordsSepPrefix(sep, b);
    WordPrefixOf(b, []);
    assert b + [] == b;
    WordsFromWord(b);
    assert b[|b|..] == [];
  }

  lemma {:induction false} WordPrefixOf(a: string, r: string)
    requires forall i :: 0 <= i < |a| ==> IsAlnum(a[i])
    requires r == [] || !IsAlnum(r[0])
    ensures WordPrefix(a + r) == a
    decreases |a|
  {
    if a == [] {
      assert a + r == r;
    } else {
      assert (a + r)[1..] == a[1..] + r;
      WordPrefixOf(a[1..], r);
      assert a == [a[0]] + a[1..];
    }
  }

  /**
   * Two two-word names whose words agree up to letter case normalise alike,
   * whatever runs of separators stand between the words.
   */
  lemma TwoWordNames(a: string, sep: string, b: string, c: string, sep': string, d: string)
    requires IsWord(a) && IsWord(b) && IsWord(c) && IsWord(d)
    requires sep != [] && forall i :: 0 <= i < |sep| ==> !IsAlnum(sep[i])
    requires sep' != [] && forall i :: 0 <= i < |sep'| ==> !IsAlnum(sep'[i])
    requires LowerAll(a) == LowerAll(c) && LowerAll(b) == LowerAll(d)
    ensures Normalise(a + sep + b) == Normalise(c + sep' + d)
  {
    WordsOfTwo(a, sep, b);
    WordsOfTwo(c, sep', d);
    assert LowerWords([a, b]) == LowerWords([c, d]);
    SameNormalIffSameWords(a + sep + b, c + sep' + d);
  }

  /** "Machine-Learning" and "machine learning" have the same normal form. */
  lemma MachineLearningExample()
    ensures Normalise("Machine-Learning") == Normalise("machine learning")
  {
    var m, l := "Machine", "Learning";
    assert "Machine-Learning" == m + "-" + l;
    assert "machine learning" == "machine" + " " + "learning";
    assert LowerAll(m) == "machine" == LowerAll("machine");
    assert LowerAll(l) == "learning" == LowerAll("learning");
    TwoWordNames(m, "-", l, "machine", " ", "learning");
  }
}
