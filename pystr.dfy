/**
 * The parts of Python's `str` that the scripts rely on, with Python's own
 * edge cases: slicing with negative or out-of-range bounds, `find`
 * returning -1, the substring test `in`, `split(sep)`, whitespace
 * `split()` and `lower()`.
 */
module PyStr {
  import opened Seqs

  /** The exceptions the modelled code can raise. */
  datatype PyError =
    | KeyError(key: string)              // a missing dictionary key or data-frame column
    | TypeError(reason: string)          // e.g. `''.join` meeting a value that is not a string
    | AttributeError(attribute: string)  // e.g. a method called on `None`

  // ---------------------------------------------------------------------------
  // Slicing

  /** How Python turns a slice bound `k` into a position of a sequence of length `n`:
      a negative bound counts from the end, and both directions are clamped. */
  function SliceBound(k: int, n: nat): (b: nat)
    ensures b <= n
  {
    if k < 0 then (if k + n < 0 then 0 else k + n)
    else if k > n then n
    else k
  }

  /** `s[:k]` */
  function SliceTo(s: string, k: int): string {
    s[..SliceBound(k, |s|)]
  }

  /** `s[k:]` */
  function SliceFrom(s: string, k: int): string {
    s[SliceBound(k, |s|)..]
  }

  // ---------------------------------------------------------------------------
  // Searching

  /** `sub` occurs in `s` starting at position `i`. */
  predicate MatchAt(s: string, sub: string, i: int) {
    0 <= i && i + |sub| <= |s| && s[i..i + |sub|] == sub
  }

  /** `i` is the position of the first occurrence of `sub` in `s`. */
  predicate IsFirstMatch(s: string, sub: string, i: int) {
    MatchAt(s, sub, i) && forall j :: 0 <= j < i ==> !MatchAt(s, sub, j)
  }

  /** `sub` occurs somewhere in `s`. */
  ghost predicate Occurs(s: string, sub: string) {
    exists i :: MatchAt(s, sub, i)
  }

  function FindFrom(s: string, sub: string, i: nat): (r: int)
    requires forall j :: 0 <= j < i ==> !MatchAt(s, sub, j)
    ensures r == -1 || IsFirstMatch(s, sub, r)
    ensures r == -1 ==> forall j :: !MatchAt(s, sub, j)
    decreases |s| - i
  {
    if i + |sub| > |s| then -1
    else if s[i..i + |sub|] == sub then i
    else FindFrom(s, sub, i + 1)
  }

  /** `s.find(sub)`: the first position of `sub` in `s`, or -1 when there is none. */
  function Find(s: string, sub: string): (r: int)
    ensures r >= 0 ==> IsFirstMatch(s, sub, r)
    ensures r < 0 <==> !Occurs(s, sub)
  {
    FindFrom(s, sub, 0)
  }

  /** `sub in s` for strings: a substring test. */
  predicate Contains(s: string, sub: string)
    ensures Contains(s, sub) <==> Occurs(s, sub)
  {
    Find(s, sub) >= 0
  }

  // ---------------------------------------------------------------------------
  // Case

  /** Lower-cases the ASCII letters; every other character is left as it is. */
  function LowerChar(c: char): char {
    if 'A' <= c <= 'Z' then (c as int + 32) as char else c
  }

  /** `s.lower()`, restricted to ASCII letters. */
  function Lower(s: string): (r: string)
    ensures |r| == |s|
    ensures forall i :: 0 <= i < |s| ==> r[i] == LowerChar(s[i])
  {
    seq(|s|, i requires 0 <= i < |s| => LowerChar(s[i]))
  }

  // ---------------------------------------------------------------------------
  // split(sep)

  /** `s.split(sep)` for a one-character separator: the pieces between separators, empty ones included. */
  function Split(s: string, sep: char): (r: seq<string>)
    ensures |r| >= 1
    ensures forall piece :: piece in r ==> sep !in piece
    decreases |s|
  {
    if s == [] then [[]]
    else if s[0] == sep then [[]] + Split(s[1..], sep)
    else
      var t := Split(s[1..], sep);
      [[s[0]] + t[0]] + t[1..]
  }

  /** `sep.join(pieces)` */
  function Join(pieces: seq<string>, sep: char): string
    requires |pieces| >= 1
    decreases |pieces|
  {
    if |pieces| == 1 then pieces[0] else pieces[0] + [sep] + Join(pieces[1..], sep)
  }

  lemma {:induction false} SplitJoinRoundTrip(s: string, sep: char)
    ensures Join(Split(s, sep), sep) == s
    decreases |s|
  {
    if s != [] {
      SplitJoinRoundTrip(s[1..], sep);
      var t := Split(s[1..], sep);
      if s[0] == sep {
        var r := [[]] + t;
        assert r[1..] == t;
        assert Join(r, sep) == [] + [sep] + Join(t, sep);
        assert s == [s[0]] + s[1..];
      } else {
        var r := [[s[0]] + t[0]] + t[1..];
        assert r[1..] == t[1..];
        if |t| == 1 {
          assert Join(r, sep) == [s[0]] + t[0];
        } else {
          assert Join(t, sep) == t[0] + [sep] + Join(t[1..], sep);
          assert Join(r, sep) == [s[0]] + t[0] + [sep] + Join(t[1..], sep);
        }
        assert s == [s[0]] + s[1..];
      }
    }
  }

  /** A string that starts with a separator-free piece `w` and a separator splits into `w` and the split of the rest. */
  lemma {:induction false} SplitAfterPiece(w: string, rest: string, sep: char)
    requires sep !in w
    ensures Split(w + [sep] + rest, sep) == [w] + Split(rest, sep)
    decreases |w|
  {
    var s := w + [sep] + rest;
    if w == [] {
      assert s[0] == sep && s[1..] == rest;
    } else {
      assert s[0] == w[0] && s[1..] == w[1..] + [sep] + rest;
      SplitAfterPiece(w[1..], rest, sep);
      assert [w[0]] + w[1..] == w;
    }
  }

  /** `seg` is the part of `s` before the first `sep` (all of `s` if there is none). */
  predicate IsLeadingSegment(seg: string, s: string, sep: char) {
    seg <= s && sep !in seg && (|seg| == |s| || s[|seg|] == sep)
  }

  lemma {:induction false} SplitHeadIsLeadingSegment(s: string, sep: char)
    ensures IsLeadingSegment(Split(s, sep)[0], s, sep)
    decreases |s|
  {
    if s != [] && s[0] != sep {
      SplitHeadIsLeadingSegment(s[1..], sep);
      assert s == [s[0]] + s[1..];
    }
  }

  /** For a path `/name/rest` the piece at index 2 of `path.split('/')` is the leading segment of `rest`. */
  lemma SplitThirdPiece(path: string, name: string, rest: string)
    requires '/' !in name
    requires path == "/" + name + "/" + rest
    ensures |Split(path, '/')| >= 3
    ensures IsLeadingSegment(Split(path, '/')[2], rest, '/')
  {
    assert path == [] + ['/'] + (name + ['/'] + rest);
    SplitAfterPiece([], name + ['/'] + rest, '/');
    SplitAfterPiece(name, rest, '/');
    SplitHeadIsLeadingSegment(rest, '/');
  }

  /** For a path that starts with `/name/`, the piece at index 2 of `path.split('/')` is the leading segment after that prefix. */
  lemma SplitPrefixed(path: string, name: string)
    requires '/' !in name
    requires "/" + name + "/" <= path
    ensures |Split(path, '/')| >= 3
    ensures IsLeadingSegment(Split(path, '/')[2], path[|name| + 2..], '/')
  {
    var n := |name| + 2;
    assert path == "/" + name + "/" + path[n..];
    SplitThirdPiece(path, name, path[n..]);
  }

  // ---------------------------------------------------------------------------
  // split() on whitespace

  /** The characters for which Python's `str.isspace()` holds. */
  const SpaceChars: set<char> := {
    '\t', '\n', '\U{0B}', '\U{0C}', '\r', '\U{1C}', '\U{1D}', '\U{1E}', '\U{1F}', ' ',
    '\U{85}', '\U{A0}', '\U{1680}',
    '\U{2000}', '\U{2001}', '\U{2002}', '\U{2003}', '\U{2004}', '\U{2005}',
    '\U{2006}', '\U{2007}', '\U{2008}', '\U{2009}', '\U{200A}',
    '\U{2028}', '\U{2029}', '\U{202F}', '\U{205F}', '\U{3000}'
  }

  /** Python's `str.isspace()` for one character. */
  predicate IsSpace(c: char) {
    c in SpaceChars
  }

  /** A non-empty run of non-whitespace characters. */
  predicate IsWord(w: string) {
    w != [] && forall c :: c in w ==> !IsSpace(c)
  }

  /** The maximal word at the start of `s`. */
  function WordAt(s: string): (w: string)
    requires s != [] && !IsSpace(s[0])
    ensures IsWord(w) && |w| <= |s| && w == s[..|w|]
    ensures |w| == |s| || IsSpace(s[|w|])
    decreases |s|
  {
    if |s| == 1 || IsSpace(s[1]) then [s[0]]
    else
      var t := WordAt(s[1..]);
      assert s[..1 + |t|] == [s[0]] + t;
      [s[0]] + t
  }

  /** `s.split()`: the maximal runs of non-whitespace characters, in order. */
  function Words(s: string): seq<string>
    decreases |s|
  {
    if s == [] then []
    else if IsSpace(s[0]) then Words(s[1..])
    else
      var w := WordAt(s);
      [w] + Words(s[|w|..])
  }

  /** The concatenation of the words. */
  function Concat(ws: seq<string>): string {
    if ws == [] then [] else ws[0] + Concat(ws[1..])
  }

  predicate NotSpace(c: char) {
    !IsSpace(c)
  }

  lemma ConcatCons(w: string, ws: seq<string>)
    ensures Concat([w] + ws) == w + Concat(ws)
  {
    assert ([w] + ws)[1..] == ws;
  }

  /** Splitting loses only whitespace: the words, put back together, are the non-space characters of `s`. */
  lemma {:induction false} WordsKeepEveryOtherCharacter(s: string)
    ensures Concat(Words(s)) == Filter(s, NotSpace)
    decreases |s|
  {
    if s != [] {
      assert s == [s[0]] + s[1..];
      if IsSpace(s[0]) {
        WordsKeepEveryOtherCharacter(s[1..]);
        FilterAppend([s[0]], s[1..], NotSpace);
      } else {
        var w := WordAt(s);
        var rest := s[|w|..];
        WordsKeepEveryOtherCharacter(rest);
        assert s == w + rest;
        FilterAppend(w, rest, NotSpace);
        WordIsUnfiltered(w);
        ConcatCons(w, Words(rest));
      }
    }
  }

  lemma {:induction false} WordIsUnfiltered(w: string)
    requires forall c :: c in w ==> !IsSpace(c)
    ensures Filter(w, NotSpace) == w
    decreases |w|
  {
    if w != [] {
      WordIsUnfiltered(w[1..]);
      assert w == [w[0]] + w[1..];
    }
  }

  lemma {:induction false} WordAtStopsInside(a: string, b: string)
    requires a != [] && !IsSpace(a[0]) && IsSpace(a[|a| - 1])
    ensures WordAt(a + b) == WordAt(a)
    decreases |a|
  {
    assert (a + b)[1] == a[1];
    if !IsSpace(a[1]) {
      assert (a + b)[1..] == a[1..] + b;
      WordAtStopsInside(a[1..], b);
    }
  }

  lemma {:induction false} WordAtStopsAtEnd(a: string, b: string)
    requires a != [] && !IsSpace(a[0]) && (b == [] || IsSpace(b[0]))
    ensures WordAt(a + b) == WordAt(a)
    decreases |a|
  {
    if |a| > 1 && !IsSpace(a[1]) {
      assert (a + b)[1] == a[1];
      assert (a + b)[1..] == a[1..] + b;
      WordAtStopsAtEnd(a[1..], b);
    }
  }

  lemma AppendAfterHead<T>(x: T, s: seq<T>, t: seq<T>)
    ensures [x] + (s + t) == ([x] + s) + t
  {
  }

  /** Text that ends in whitespace splits independently of what follows it. */
  lemma {:induction false} WordsAppendAfterSpace(a: string, b: string)
    requires a == [] || IsSpace(a[|a| - 1])
    ensures Words(a + b) == Words(a) + Words(b)
    decreases |a|
  {
    if a == [] {
      assert a + b == b;
    } else if IsSpace(a[0]) {
      assert (a + b)[1..] == a[1..] + b;
      WordsAppendAfterSpace(a[1..], b);
    } else {
      var w := WordAt(a);
      WordAtStopsInside(a, b);
      assert |w| < |a|;
      assert (a + b)[|w|..] == a[|w|..] + b;
      WordsAppendAfterSpace(a[|w|..], b);
      AppendAfterHead(w, Words(a[|w|..]), Words(b));
    }
  }

  /** Text followed by whitespace (or nothing) splits independently of what follows. */
  lemma {:induction false} WordsAppendBeforeSpace(a: string, b: string)
    requires b == [] || IsSpace(b[0])
    ensures Words(a + b) == Words(a) + Words(b)
    decreases |a|
  {
    if a == [] {
      assert a + b == b;
    } else if IsSpace(a[0]) {
      assert (a + b)[1..] == a[1..] + b;
      WordsAppendBeforeSpace(a[1..], b);
    } else {
      var w := WordAt(a);
      WordAtStopsAtEnd(a, b);
      assert (a + b)[|w|..] == a[|w|..] + b;
      WordsAppendBeforeSpace(a[|w|..], b);
      AppendAfterHead(w, Words(a[|w|..]), Words(b));
    }
  }

  lemma WordsOfWord(w: string)
    requires IsWord(w)
    ensures Words(w) == [w]
  {
    var v := WordAt(w);
    assert forall i :: 0 <= i < |w| ==> !IsSpace(w[i]);
    assert v == w;
    assert Words(w) == [v] + Words(w[|v|..]);
    assert w[|w|..] == [];
  }

  /** A word followed by whitespace (or nothing) is the first word of the split. */
  lemma WordThenRest(w: string, b: string)
    requires IsWord(w) && (b == [] || IsSpace(b[0]))
    ensures Words(w + b) == [w] + Words(b)
  {
    WordsAppendBeforeSpace(w, b);
    WordsOfWord(w);
  }

  /** A word preceded by whitespace (or nothing) is the last word of the split. */
  lemma RestThenWord(a: string, w: string)
    requires IsWord(w) && (a == [] || IsSpace(a[|a| - 1]))
    ensures Words(a + w) == Words(a) + [w]
  {
    WordsAppendAfterSpace(a, w);
    WordsOfWord(w);
  }

  /**
   * Joining texts with the empty string before splitting fuses words: when
   * the first text ends in the word `w1` and the second starts with `w2`,
   * the split of the joined text has the single word `w1 + w2` where the
   * separate splits had `w1` and `w2`.
   */
  lemma DescriptionsFuse(a: string, w1: string, w2: string, b: string)
    requires a == [] || IsSpace(a[|a| - 1])
    requires IsWord(w1) && IsWord(w2)
    requires b == [] || IsSpace(b[0])
    ensures Words(a + w1) == Words(a) + [w1]
    ensures Words(w2 + b) == [w2] + Words(b)
    ensures Words((a + w1) + (w2 + b)) == Words(a) + ([w1 + w2] + Words(b))
  {
    RestThenWord(a, w1);
    WordThenRest(w2, b);
    WordsConcat(w1, w2);
    WordBetween(a, w1 + w2, b);
    Regroup(a, w1, w2, b);
  }

  lemma Regroup(a: string, w1: string, w2: string, b: string)
    ensures Words((a + w1) + (w2 + b)) == Words(a + (w1 + w2 + b))
  {
    assert (a + w1) + (w2 + b) == a + (w1 + w2 + b);
  }

  lemma WordsConcat(w1: string, w2: string)
    requires IsWord(w1) && IsWord(w2)
    ensures IsWord(w1 + w2)
  {
    forall c | c in w1 + w2 ensures !IsSpace(c) {
      assert c in w1 || c in w2;
    }
  }

  /** A word with whitespace (or nothing) on both sides is a word of the split. */
  lemma WordBetween(a: string, w: string, b: string)
    requires a == [] || IsSpace(a[|a| - 1])
    requires IsWord(w)
    requires b == [] || IsSpace(b[0])
    ensures Words(a + (w + b)) == Words(a) + ([w] + Words(b))
  {
    WordThenRest(w, b);
    WordsAppendAfterSpace(a, w + b);
  }
}
