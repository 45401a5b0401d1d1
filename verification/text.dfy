/** The Python 2 byte-string operations the status parsers are built from:
    `str.replace` of one character, `str.split(sep)` with a one-character
    separator (empty pieces kept), `str.split()` with no argument (runs of
    whitespace, empty pieces dropped) and `str.strip()`. */
module PyText {

  /** Python 2 `str.isspace` on one byte: space, tab, newline, carriage
      return, vertical tab and form feed. */
  predicate IsSpace(c: char)
  {
    c == ' ' || c == '\t' || c == '\n' || c == '\r' || c == '\U{000B}' || c == '\U{000C}'
  }

  /** Every character is whitespace (the empty string included). */
  predicate Blank(s: string)
  {
    forall i :: 0 <= i < |s| ==> IsSpace(s[i])
  }

  /** No character is whitespace. */
  predicate NoSpace(s: string)
  {
    forall i :: 0 <= i < |s| ==> !IsSpace(s[i])
  }

  /** A character occurs in a concatenation exactly when it occurs in a part. */
  lemma InConcat(a: string, b: string)
    ensures forall c :: c in a + b <==> c in a || c in b
  {
    forall c | c in a + b ensures c in a || c in b {
      var i :| 0 <= i < |a + b| && (a + b)[i] == c;
      if i >= |a| { assert b[i - |a|] == c; }
    }
    forall c | c in b ensures c in a + b {
      var i :| 0 <= i < |b| && b[i] == c;
      assert (a + b)[|a| + i] == c;
    }
  }

  // ---------------------------------------------------------------------
  // str.replace(old, new) for one-character old and new
  // ---------------------------------------------------------------------

  function Replace(s: string, from: char, to: char): (r: string)
    ensures |r| == |s|
    ensures forall i :: 0 <= i < |s| ==> r[i] == (if s[i] == from then to else s[i])
    ensures from != to ==> from !in r
  {
    seq(|s|, i requires 0 <= i < |s| => if s[i] == from then to else s[i])
  }

  /** Replacement works character by character, so it distributes over concatenation. */
  lemma ReplaceConcat(a: string, b: string, from: char, to: char)
    ensures Replace(a + b, from, to) == Replace(a, from, to) + Replace(b, from, to)
  {
  }

  /** A string without the replaced character is left alone. */
  lemma ReplaceAbsent(s: string, from: char, to: char)
    requires from !in s
    ensures Replace(s, from, to) == s
  {
  }

  // ---------------------------------------------------------------------
  // str.split(sep) and its inverse sep.join(pieces)
  // ---------------------------------------------------------------------

  /** Index of the first occurrence of `c` in `s`. */
  function Find(s: string, c: char): (i: nat)
    requires c in s
    ensures i < |s| && s[i] == c
    ensures c !in s[..i]
  {
    if s[0] == c then 0
    else
      var j := Find(s[1..], c);
      assert s[..j + 1] == [s[0]] + s[1..][..j];
      j + 1
  }

  /** `sep.join(pieces)`. */
  function Join(pieces: seq<string>, sep: char): string
    requires |pieces| > 0
  {
    if |pieces| == 1 then pieces[0] else pieces[0] + [sep] + Join(pieces[1..], sep)
  }

  /** Every character of a piece occurs in the joined text. */
  lemma {:induction false} JoinHolds(pieces: seq<string>, sep: char, i: nat, c: char)
    requires i < |pieces| && c in pieces[i]
    ensures c in Join(pieces, sep)
    decreases i
  {
    if |pieces| > 1 {
      InConcat(pieces[0] + [sep], Join(pieces[1..], sep));
      InConcat(pieces[0], [sep]);
      if i > 0 {
        JoinHolds(pieces[1..], sep, i - 1, c);
      }
    }
  }

  /** The replacement leaves `to` in the text exactly where `from` or `to`
      was. */
  lemma ReplaceHolds(s: string, from: char, to: char)
    ensures to in Replace(s, from, to) <==> from in s || to in s
  {
    var r := Replace(s, from, to);
    if to in r {
      var i :| 0 <= i < |r| && r[i] == to;
      assert s[i] == from || s[i] == to;
    }
    if from in s {
      var i :| 0 <= i < |s| && s[i] == from;
      assert r[i] == to;
    }
    if to in s {
      var i :| 0 <= i < |s| && s[i] == to;
      assert r[i] == to;
    }
  }

  /** `s.split(sep)`: cut at every occurrence of `sep`, keeping empty pieces.
      The result is never empty and joining it back gives `s`. */
  function Split(s: string, sep: char): (pieces: seq<string>)
    ensures |pieces| > 0
    ensures forall i :: 0 <= i < |pieces| ==> sep !in pieces[i]
    ensures Join(pieces, sep) == s
    ensures |pieces| == 1 <==> sep !in s
    decreases |s|
  {
    if sep !in s then [s]
    else
      var i := Find(s, sep);
      var rest := Split(s[i + 1..], sep);
      assert s == s[..i] + [sep] + s[i + 1..];
      [s[..i]] + rest
  }

  /** The first occurrence is determined by where it is. */
  lemma {:induction false} FindUnique(s: string, c: char, i: nat)
    requires i < |s| && s[i] == c && c !in s[..i]
    ensures Find(s, c) == i
    decreases i
  {
    if i > 0 {
      assert s[0] == s[..i][0];
      assert s[1..][..i - 1] == s[..i][1..];
      FindUnique(s[1..], c, i - 1);
    }
  }

  /** A separator-free first piece is split off as it is. */
  lemma SplitCons(p: string, sep: char, rest: string)
    requires sep !in p
    ensures Split(p + [sep] + rest, sep) == [p] + Split(rest, sep)
  {
    var s := p + [sep] + rest;
    assert s[..|p|] == p;
    FindUnique(s, sep, |p|);
    assert s[|p| + 1..] == rest;
  }

  /** Splitting undoes joining: a list of separator-free pieces is recovered
      exactly from its joined text. Together with `Split`'s own contract this
      says `Split` is the unique separator-free decomposition of a string. */
  lemma {:induction false} SplitJoin(pieces: seq<string>, sep: char)
    requires |pieces| > 0
    requires forall i :: 0 <= i < |pieces| ==> sep !in pieces[i]
    ensures Split(Join(pieces, sep), sep) == pieces
    decreases |pieces|
  {
    if |pieces| > 1 {
      SplitCons(pieces[0], sep, Join(pieces[1..], sep));
      SplitJoin(pieces[1..], sep);
      assert pieces == [pieces[0]] + pieces[1..];
    }
  }

  // ---------------------------------------------------------------------
  // Leading and trailing whitespace
  // ---------------------------------------------------------------------

  /** Length of the whitespace run that starts `s`. */
  function LeadingSpace(s: string): (n: nat)
    ensures n <= |s|
    ensures forall i :: 0 <= i < n ==> IsSpace(s[i])
    ensures n == |s| || !IsSpace(s[n])
  {
    if |s| > 0 && IsSpace(s[0]) then LeadingSpace(s[1..]) + 1 else 0
  }

  /** Length of the whitespace run that ends `s`. */
  function TrailingSpace(s: string): (n: nat)
    ensures n <= |s|
    ensures forall i :: |s| - n <= i < |s| ==> IsSpace(s[i])
    ensures n == |s| || !IsSpace(s[|s| - n - 1])
  {
    if |s| > 0 && IsSpace(s[|s| - 1]) then TrailingSpace(s[..|s| - 1]) + 1 else 0
  }

  /** The leading whitespace run is determined by where it stops. */
  lemma LeadingSpaceUnique(s: string, n: nat)
    requires n <= |s| && (forall i :: 0 <= i < n ==> IsSpace(s[i])) && (n == |s| || !IsSpace(s[n]))
    ensures LeadingSpace(s) == n
  {
  }

  /** Length of the non-whitespace run that starts `s`. */
  function WordLength(s: string): (n: nat)
    ensures n <= |s|
    ensures forall i :: 0 <= i < n ==> !IsSpace(s[i])
    ensures n == |s| || IsSpace(s[n])
  {
    if |s| > 0 && !IsSpace(s[0]) then WordLength(s[1..]) + 1 else 0
  }

  /** The leading word is determined by where it stops. */
  lemma WordLengthUnique(s: string, n: nat)
    requires n <= |s| && (forall i :: 0 <= i < n ==> !IsSpace(s[i])) && (n == |s| || IsSpace(s[n]))
    ensures WordLength(s) == n
  {
  }

  /** A string that starts with whitespace or is empty: the text after a word. */
  predicate WordBoundary(s: string)
  {
    |s| == 0 || IsSpace(s[0])
  }

  /** A core that neither starts nor ends with whitespace. */
  predicate Trimmed(s: string)
  {
    |s| == 0 || (!IsSpace(s[0]) && !IsSpace(s[|s| - 1]))
  }

  // ---------------------------------------------------------------------
  // str.strip()
  // ---------------------------------------------------------------------

  /** `s.strip()`: drop leading and trailing whitespace. The result is
      trimmed, it is `""` exactly for blank text, and it is the stretch of
      `s` after the leading whitespace, followed only by whitespace. */
  function Strip(s: string): (r: string)
    ensures Trimmed(r)
    ensures Blank(s) <==> r == ""
    ensures var k := LeadingSpace(s);
      k + |r| <= |s| && r == s[k..k + |r|]
      && (forall i :: 0 <= i < k ==> IsSpace(s[i]))
      && (forall i :: k + |r| <= i < |s| ==> IsSpace(s[i]))
  {
    var k, e := LeadingSpace(s), |s| - TrailingSpace(s);
    if e <= k then
      assert Blank(s) by {
        forall i | 0 <= i < |s| ensures IsSpace(s[i]) {
          if k <= i { assert e <= i; }
        }
      }
      ""
    else
      assert s[k..e][0] == s[k] && s[k..e][e - k - 1] == s[e - 1];
      s[k..e]
  }

  /** A trimmed core with only whitespace around it is what `Strip` keeps. */
  lemma StripAround(s: string, k: nat, core: string)
    requires Trimmed(core) && k + |core| <= |s| && s[k..k + |core|] == core
    requires forall i :: 0 <= i < k ==> IsSpace(s[i])
    requires forall i :: k + |core| <= i < |s| ==> IsSpace(s[i])
    ensures Strip(s) == core
  {
    var r := Strip(s);
    if |core| > 0 {
      assert s[k] == core[0];
      LeadingSpaceUnique(s, k);
      assert s[k + |core| - 1] == core[|core| - 1];
    }
  }

  /** Blank text around a trimmed core is exactly what `Strip` removes. */
  lemma StripPadded(pre: string, core: string, post: string)
    requires Blank(pre) && Blank(post) && Trimmed(core)
    ensures Strip(pre + core + post) == core
  {
    var s := pre + core + post;
    assert s[|pre|..|pre| + |core|] == core;
    assert forall i :: |pre| + |core| <= i < |s| ==> s[i] == post[i - |pre| - |core|];
    StripAround(s, |pre|, core);
  }

  // ---------------------------------------------------------------------
  // str.split() with no argument
  // ---------------------------------------------------------------------

  /** `s.split()`: the maximal runs of non-whitespace characters, in order. */
  function Words(s: string): (words: seq<string>)
    ensures forall i :: 0 <= i < |words| ==> |words[i]| > 0 && NoSpace(words[i])
    ensures |words| == 0 <==> Blank(s)
  {
    WordsShape(s);
    SplitWords(s)
  }

  /** Drop one whitespace character, or take one word, and go on. */
  function SplitWords(s: string): seq<string>
    decreases |s|
  {
    if |s| == 0 then []
    else if IsSpace(s[0]) then SplitWords(s[1..])
    else
      var n := WordLength(s);
      [s[..n]] + SplitWords(s[n..])
  }

  /** The words are non-empty and whitespace-free, and there are none
      exactly when the text is blank. */
  lemma {:induction false} WordsShape(s: string)
    ensures var words := SplitWords(s);
      && (forall i :: 0 <= i < |words| ==> |words[i]| > 0 && NoSpace(words[i]))
      && (|words| == 0 <==> Blank(s))
    decreases |s|
  {
    if |s| > 0 {
      if IsSpace(s[0]) {
        WordsShape(s[1..]);
        assert Blank(s) <==> Blank(s[1..]) by {
          assert forall i :: 1 <= i < |s| ==> s[i] == s[1..][i - 1];
        }
      } else {
        var n := WordLength(s);
        WordsShape(s[n..]);
        var words := SplitWords(s);
        assert words == [s[..n]] + SplitWords(s[n..]);
        assert NoSpace(words[0]);
      }
    }
  }

  /** Leading whitespace does not change the words. */
  lemma {:induction false} WordsSkipBlank(pre: string, s: string)
    requires Blank(pre)
    ensures Words(pre + s) == Words(s)
    decreases |pre|
  {
    if |pre| > 0 {
      assert (pre + s)[1..] == pre[1..] + s;
      WordsSkipBlank(pre[1..], s);
    } else {
      assert pre + s == s;
    }
  }

  /** The first word of text that is not blank starts right after the
      leading whitespace and runs up to the next whitespace character or
      the end. */
  lemma {:induction false} FirstWordAt(s: string)
    requires !Blank(s)
    ensures var k, w := LeadingSpace(s), Words(s)[0];
      k + |w| <= |s| && s[k..k + |w|] == w && (k + |w| == |s| || IsSpace(s[k + |w|]))
    decreases |s|
  {
    if IsSpace(s[0]) {
      assert !Blank(s[1..]) by {
        var j :| 0 <= j < |s| && !IsSpace(s[j]);
        assert s[1..][j - 1] == s[j];
      }
      FirstWordAt(s[1..]);
      var k, w := LeadingSpace(s[1..]), Words(s[1..])[0];
      assert Words(s) == Words(s[1..]);
      assert s[1..][k..k + |w|] == s[k + 1..k + 1 + |w|];
    }
  }

  /** A word after blank text comes first in the split, followed by the
      words of what follows it. */
  lemma WordsCons(pre: string, w: string, rest: string)
    requires Blank(pre) && |w| > 0 && NoSpace(w) && WordBoundary(rest)
    ensures Words(pre + w + rest) == [w] + Words(rest)
  {
    var t := w + rest;
    assert pre + w + rest == pre + t;
    WordsSkipBlank(pre, t);
    WordLengthUnique(t, |w|);
    assert t[..|w|] == w;
    assert t[|w|..] == rest;
  }

  /** `" ".join(words)`. */
  function Unwords(words: seq<string>): string
  {
    if |words| == 0 then "" else if |words| == 1 then words[0] else words[0] + " " + Unwords(words[1..])
  }

  /** `Words` undoes `Unwords` for words that are non-empty and whitespace-free. */
  lemma {:induction false} WordsUnwords(words: seq<string>)
    requires forall i :: 0 <= i < |words| ==> |words[i]| > 0 && NoSpace(words[i])
    ensures Words(Unwords(words)) == words
    decreases |words|
  {
    if |words| == 0 {
      var none: string := "";
      assert Blank(none);
    } else if |words| == 1 {
      WordsSingle(words[0]);
    } else {
      WordsUnwords(words[1..]);
      WordsSpaceCons(words[0], Unwords(words[1..]));
      assert words == [words[0]] + words[1..];
    }
  }

  /** A lone word splits to itself. */
  lemma WordsSingle(w: string)
    requires |w| > 0 && NoSpace(w)
    ensures Words(w) == [w]
  {
    var none: string := "";
    assert Blank(none);
    WordsCons(none, w, none);
    assert none + w + none == w;
  }

  /** A word followed by one space comes first, followed by the words of the rest. */
  lemma WordsSpaceCons(w: string, tail: string)
    requires |w| > 0 && NoSpace(w)
    ensures Words(w + " " + tail) == [w] + Words(tail)
  {
    var none: string := "";
    var sp: string := " ";
    assert Blank(none) && Blank(sp);
    WordsCons(none, w, sp + tail);
    assert none + w + (sp + tail) == w + " " + tail;
    WordsSkipBlank(sp, tail);
  }
}
