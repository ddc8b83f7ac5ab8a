/**
 * The pieces of Python's `str` behaviour the dump parser relies on:
 * `str.isspace`, `str.strip()`, `str.split()` (no separator) and `str.startswith`.
 * Dump files are decoded as ISO-8859-1, so every character is a code point below 256.
 */
module Text {

  /** `c.isspace()` for the code points of ISO-8859-1: tab, newline, vertical tab, form feed,
      carriage return, the four separators 0x1C-0x1F, space, NEL (0x85) and no-break space (0xA0). */
  predicate IsSpace(c: char) {
    var code := c as int;
    (9 <= code <= 13) || (28 <= code <= 32) || code == 0x85 || code == 0xA0
  }

  /** A token of `str.split()`: non-empty and free of whitespace. */
  predicate IsWord(w: string) {
    |w| > 0 && forall i :: 0 <= i < |w| ==> !IsSpace(w[i])
  }

  /** `s.startswith(p)`. */
  predicate StartsWith(s: string, p: string) {
    |p| <= |s| && s[..|p|] == p
  }

  /** Drops the leading whitespace of `s`. */
  function TrimLeft(s: string): string
  {
    if |s| > 0 && IsSpace(s[0]) then TrimLeft(s[1..]) else s
  }

  /** `TrimLeft` keeps a suffix that does not start with whitespace and drops only whitespace. */
  lemma {:induction false} TrimLeftSpec(s: string)
    ensures |TrimLeft(s)| <= |s| && TrimLeft(s) == s[|s| - |TrimLeft(s)|..]
    ensures forall i :: 0 <= i < |s| - |TrimLeft(s)| ==> IsSpace(s[i])
    ensures |TrimLeft(s)| > 0 ==> !IsSpace(TrimLeft(s)[0])
    decreases |s|
  {
    if |s| > 0 && IsSpace(s[0]) {
      TrimLeftSpec(s[1..]);
      assert forall i :: 1 <= i < |s| ==> s[i] == s[1..][i - 1];
    }
  }

  /** Drops the trailing whitespace of `s`. */
  function TrimRight(s: string): string
  {
    if |s| > 0 && IsSpace(s[|s| - 1]) then TrimRight(s[..|s| - 1]) else s
  }

  /** `TrimRight` keeps a prefix that does not end with whitespace and drops only whitespace. */
  lemma {:induction false} TrimRightSpec(s: string)
    ensures |TrimRight(s)| <= |s| && TrimRight(s) == s[..|TrimRight(s)|]
    ensures forall i :: |TrimRight(s)| <= i < |s| ==> IsSpace(s[i])
    ensures |TrimRight(s)| > 0 ==> !IsSpace(TrimRight(s)[|TrimRight(s)| - 1])
    decreases |s|
  {
    if |s| > 0 && IsSpace(s[|s| - 1]) {
      TrimRightSpec(s[..|s| - 1]);
      assert forall i :: 0 <= i < |s| - 1 ==> s[i] == s[..|s| - 1][i];
    }
  }

  /** `s.strip()`. */
  function Strip(s: string): string
  {
    TrimRight(TrimLeft(s))
  }

  /** `s.strip()` is a contiguous slice of `s` that neither starts nor ends with whitespace,
      everything cut off on either side being whitespace. */
  lemma StripSpec(s: string)
    ensures exists a, b :: 0 <= a <= b <= |s| && Strip(s) == s[a..b]
                           && (forall i :: 0 <= i < a ==> IsSpace(s[i]))
                           && (forall i :: b <= i < |s| ==> IsSpace(s[i]))
    ensures |Strip(s)| > 0 ==> !IsSpace(Strip(s)[0]) && !IsSpace(Strip(s)[|Strip(s)| - 1])
  {
    var l := TrimLeft(s);
    var r := TrimRight(l);
    TrimLeftSpec(s);
    TrimRightSpec(l);
    assert Strip(s) == r;
    var a, b := |s| - |l|, |s| - |l| + |r|;
    assert l == s[a..] && r == l[..|r|];
    assert r == s[a..b];
    assert forall i :: b <= i < |s| ==> IsSpace(s[i]) by {
      forall i | b <= i < |s|
        ensures IsSpace(s[i])
      {
        assert s[i] == l[i - a];
      }
    }
    if |r| > 0 {
      assert r[0] == l[0];
    }
  }

  /** Appending a whitespace character leaves nothing behind when `s` is all whitespace, and is
      kept after what is left otherwise. */
  lemma {:induction false} TrimLeftSnocSpace(s: string, c: char)
    requires IsSpace(c)
    ensures TrimLeft(s + [c]) == if TrimLeft(s) == "" then "" else TrimLeft(s) + [c]
    decreases |s|
  {
    var t := s + [c];
    if |s| == 0 {
      assert t[1..] == [];
    } else if IsSpace(s[0]) {
      assert t[0] == s[0] && t[1..] == s[1..] + [c];
      TrimLeftSnocSpace(s[1..], c);
    } else {
      assert t[0] == s[0];
    }
  }

  /** A whitespace character at the end of a line, such as the newline `readlines` keeps, does
      not change what `strip()` gives. */
  lemma StripIgnoresTrailingSpace(s: string, c: char)
    requires IsSpace(c)
    ensures Strip(s + [c]) == Strip(s)
  {
    TrimLeftSnocSpace(s, c);
    var l := TrimLeft(s);
    if l != "" {
      assert (l + [c])[..|l|] == l;
    }
  }

  /** `s.strip() == ""`: the line is whitespace only. */
  predicate IsBlank(s: string) {
    Strip(s) == ""
  }

  /** The length of the run of non-whitespace characters that starts `s`. */
  function WordLength(s: string): (n: nat)
    ensures n <= |s|
    ensures |s| > 0 && !IsSpace(s[0]) ==> n > 0
  {
    if |s| == 0 || IsSpace(s[0]) then 0 else 1 + WordLength(s[1..])
  }

  /** The first word of `s` is exactly its leading run of non-whitespace: every character
      before position `WordLength(s)` is a word character, and the one at it (if any) is
      whitespace. */
  lemma {:induction false} WordLengthSpec(s: string)
    ensures forall i :: 0 <= i < WordLength(s) ==> !IsSpace(s[i])
    ensures WordLength(s) < |s| ==> IsSpace(s[WordLength(s)])
    decreases |s|
  {
    if |s| > 0 && !IsSpace(s[0]) {
      WordLengthSpec(s[1..]);
      assert forall i :: 1 <= i < WordLength(s) ==> s[i] == s[1..][i - 1];
    }
  }

  /** `s.split()`: the maximal runs of non-whitespace characters, in order. */
  function Split(s: string): seq<string>
    decreases |s|
  {
    if |s| == 0 then []
    else if IsSpace(s[0]) then Split(s[1..])
    else
      var n := WordLength(s);
      [s[..n]] + Split(s[n..])
  }

  /** Every token of `s.split()` is non-empty and free of whitespace. */
  lemma {:induction false} SplitWords(s: string)
    ensures forall i :: 0 <= i < |Split(s)| ==> IsWord(Split(s)[i])
    decreases |s|
  {
    if |s| > 0 {
      if IsSpace(s[0]) {
        SplitWords(s[1..]);
      } else {
        var n := WordLength(s);
        WordLengthSpec(s);
        SplitWords(s[n..]);
        assert Split(s) == [s[..n]] + Split(s[n..]);
        assert IsWord(s[..n]);
      }
    }
  }

  /** `" ".join(ws)`, used to build lines whose tokens are known. */
  function Unwords(ws: seq<string>): string
  {
    if |ws| == 0 then ""
    else if |ws| == 1 then ws[0]
    else ws[0] + " " + Unwords(ws[1..])
  }

  /** A whitespace-only string strips to nothing and has no tokens; any other string has at
      least one token and does not strip to nothing. */
  lemma {:induction false} BlankIffNoWords(s: string)
    ensures IsBlank(s) <==> (forall i :: 0 <= i < |s| ==> IsSpace(s[i]))
    ensures IsBlank(s) <==> Split(s) == []
    decreases |s|
  {
    if |s| > 0 {
      if IsSpace(s[0]) {
        BlankIffNoWords(s[1..]);
        assert TrimLeft(s) == TrimLeft(s[1..]);
        assert Strip(s) == Strip(s[1..]);
        assert forall i :: 1 <= i < |s| ==> s[i] == s[1..][i - 1];
      } else {
        assert TrimLeft(s) == s;
        var r := TrimRight(s);
        TrimRightSpec(s);
        assert !IsSpace(s[0]);
        assert |r| > 0;
      }
    }
  }

  /** A word alone on a line is its only token. */
  lemma SplitWord(w: string)
    requires IsWord(w)
    ensures Split(w) == [w]
  {
    assert !IsSpace(w[0]);
    WordLengthSpec(w);
    assert WordLength(w) == |w|;
    assert w[..|w|] == w;
    assert w[|w|..] == [];
    assert Split(w) == [w[..|w|]] + Split(w[|w|..]);
  }

  /** Splitting a line built from space-separated words gives back those words. */
  lemma {:induction false} SplitUnwords(ws: seq<string>)
    requires forall i :: 0 <= i < |ws| ==> IsWord(ws[i])
    ensures Split(Unwords(ws)) == ws
    decreases |ws|
  {
    if |ws| == 1 {
      SplitWord(ws[0]);
    } else if |ws| > 1 {
      var w, rest := ws[0], Unwords(ws[1..]);
      var s := w + " " + rest;
      assert s[0] == w[0];
      var n := WordLength(s);
      WordLengthSpec(s);
      assert s[|w|] == ' ';
      assert forall i :: 0 <= i < |w| ==> s[i] == w[i];
      assert n == |w|;
      assert s[..n] == w;
      assert s[n..] == " " + rest;
      assert (" " + rest)[1..] == rest;
      SplitUnwords(ws[1..]);
    }
  }

  /** A whitespace character appended to a string does not lengthen its first word. */
  lemma {:induction false} WordLengthSnocSpace(s: string, c: char)
    requires IsSpace(c)
    ensures WordLength(s + [c]) == WordLength(s)
    decreases |s|
  {
    if |s| > 0 && !IsSpace(s[0]) {
      assert (s + [c])[0] == s[0] && (s + [c])[1..] == s[1..] + [c];
      WordLengthSnocSpace(s[1..], c);
    }
  }

  /** A whitespace character at the end of a line, such as the newline `readlines` keeps, adds
      no token. */
  lemma {:induction false} SplitIgnoresTrailingSpace(s: string, c: char)
    requires IsSpace(c)
    ensures Split(s + [c]) == Split(s)
    decreases |s|
  {
    var t := s + [c];
    if |s| == 0 {
      assert t[1..] == [];
    } else if IsSpace(s[0]) {
      assert t[0] == s[0] && t[1..] == s[1..] + [c];
      SplitIgnoresTrailingSpace(s[1..], c);
    } else {
      assert t[0] == s[0];
      var n, n' := WordLength(s), WordLength(t);
      WordLengthSnocSpace(s, c);
      assert t[..n] == s[..n] && t[n..] == s[n..] + [c];
      SplitIgnoresTrailingSpace(s[n..], c);
    }
  }
}
