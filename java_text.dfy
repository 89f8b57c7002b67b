/**
 * The string operations the stores servlet relies on, with the semantics of
 * the Java library: `String.trim()`, `split(",")`, `split("\\s+")` on a
 * trimmed string, joining with a separator, and `Boolean.valueOf`.
 */
module JavaText {
  import opened Optional

  /** `trim()` removes every character at or below U+0020 from both ends. */
  predicate IsTrimmable(c: char) {
    c <= ' '
  }

  /** Every character of s is removed by `trim()`. */
  predicate IsBlank(s: string) {
    forall k :: 0 <= k < |s| ==> IsTrimmable(s[k])
  }

  /** The characters of the regular-expression class `\s`. */
  const Whitespace: set<char> := {' ', '\t', '\n', '\U{0B}', '\U{0C}', '\r'}

  /** The first index at or after i whose character `trim()` keeps, or |s|. */
  function SkipBlanks(s: string, i: nat): (j: nat)
    requires i <= |s|
    ensures i <= j <= |s|
    ensures forall k :: i <= k < j ==> IsTrimmable(s[k])
    ensures j < |s| ==> !IsTrimmable(s[j])
    decreases |s| - i
  {
    if i < |s| && IsTrimmable(s[i]) then SkipBlanks(s, i + 1) else i
  }

  /** The end index, between lo and j, once the blanks just before j are dropped. */
  function DropBlanks(s: string, lo: nat, j: nat): (e: nat)
    requires lo <= j <= |s|
    ensures lo <= e <= j
    ensures forall k :: e <= k < j ==> IsTrimmable(s[k])
    ensures lo < e ==> !IsTrimmable(s[e - 1])
  {
    if lo < j && IsTrimmable(s[j - 1]) then DropBlanks(s, lo, j - 1) else j
  }

  /**
   * `s.trim()`: s with its leading and trailing characters at or below U+0020
   * cut off. It neither starts nor ends with a blank (so neither with
   * whitespace), and is empty exactly when every character of s is a blank.
   */
  function Trim(s: string): (t: string)
    ensures t != [] ==> !IsTrimmable(t[0]) && !IsTrimmable(t[|t| - 1])
    ensures t == [] <==> IsBlank(s)
    ensures t == [] || (t[0] !in Whitespace && t[|t| - 1] !in Whitespace)
  {
    var lo := SkipBlanks(s, 0);
    var hi := DropBlanks(s, lo, |s|);
    TrimBounds(s, lo, hi);
    s[lo..hi]
  }

  /** `trim()` cuts a blank prefix and a blank suffix off s and keeps the rest unchanged. */
  lemma TrimCutsBlanks(s: string)
    ensures exists lo, hi :: 0 <= lo <= hi <= |s| && Trim(s) == s[lo..hi] && IsBlank(s[..lo]) && IsBlank(s[hi..])
  {
    var lo := SkipBlanks(s, 0);
    TrimBounds(s, lo, DropBlanks(s, lo, |s|));
  }

  /** What the two indices of `trim()` say about the substring between them and the parts cut off. */
  lemma TrimBounds(s: string, lo: nat, hi: nat)
    requires lo <= |s| && lo == SkipBlanks(s, 0) && hi == DropBlanks(s, lo, |s|)
    ensures lo <= hi <= |s|
    ensures IsBlank(s[..lo]) && IsBlank(s[hi..])
    ensures lo < hi ==> !IsTrimmable(s[lo..hi][0]) && !IsTrimmable(s[lo..hi][hi - lo - 1])
    ensures lo == hi <==> IsBlank(s)
    ensures lo < hi ==> s[lo..hi][0] !in Whitespace && s[lo..hi][hi - lo - 1] !in Whitespace
  {
  }

  /** The pieces of s between the characters of `seps`, empty pieces included. */
  function Pieces(s: string, seps: set<char>): (ps: seq<string>)
    ensures |ps| >= 1
  {
    if s == [] then [[]]
    else
      var rest := Pieces(s[1..], seps);
      if s[0] in seps then [[]] + rest else [[s[0]] + rest[0]] + rest[1..]
  }

  /** The pieces with the empty ones removed. */
  function NonEmpty(ps: seq<string>): (qs: seq<string>)
    ensures forall q :: q in qs ==> q in ps && q != []
  {
    if ps == [] then []
    else if ps[0] == [] then NonEmpty(ps[1..])
    else [ps[0]] + NonEmpty(ps[1..])
  }

  /** The array's trailing empty strings are removed. */
  function DropTrailingEmpty(ps: seq<string>): (qs: seq<string>)
    ensures |qs| <= |ps| && qs == ps[..|qs|]
    ensures qs != [] ==> qs[|qs| - 1] != []
    ensures forall k :: |qs| <= k < |ps| ==> ps[k] == []
  {
    if ps == [] then []
    else if ps[|ps| - 1] == [] then DropTrailingEmpty(ps[..|ps| - 1])
    else ps
  }

  /** `s.split(",")`: the whole string when there is no comma, else the pieces without trailing empty ones. */
  function SplitComma(s: string): (ps: seq<string>)
    ensures ',' !in s ==> ps == [s]
    ensures forall p, k :: p in ps && 0 <= k < |p| ==> p[k] != ','
  {
    if ',' !in s then [s]
    else
      PiecesAvoidSeparators(s, {','});
      DropTrailingEmpty(Pieces(s, {','}))
  }

  /**
   * `t.split("\\s+")` for a string that neither starts nor ends with
   * whitespace (as a trimmed string does): the maximal runs of non-whitespace
   * characters, or the single empty string for an empty t.
   */
  function SplitWhitespace(t: string): (ws: seq<string>)
    requires t == [] || (t[0] !in Whitespace && t[|t| - 1] !in Whitespace)
    ensures |ws| >= 1
    ensures t != [] ==> forall w :: w in ws ==> w != []
  {
    if t == [] then [[]]
    else
      FirstPieceOfPlainStart(t, Whitespace);
      NonEmpty(Pieces(t, Whitespace))
  }

  /** The words joined with the separator in between, as a StringBuilder appends them. */
  function Join(ws: seq<string>, sep: char): string {
    if |ws| == 0 then []
    else if |ws| == 1 then ws[0]
    else Join(ws[..|ws| - 1], sep) + [sep] + ws[|ws| - 1]
  }

  /** Appending one word to a join appends the separator and the word. */
  lemma JoinSnoc(ws: seq<string>, w: string, sep: char)
    requires |ws| >= 1
    ensures Join(ws + [w], sep) == Join(ws, sep) + [sep] + w
  {
    assert (ws + [w])[..|ws|] == ws;
  }

  /** An ASCII letter in lower case; every other character unchanged. */
  function LowerAscii(c: char): char {
    if 'A' <= c <= 'Z' then (c as int + 32) as char else c
  }

  /** `Boolean.valueOf(s)`: true only for a present string equal to "true" ignoring case. */
  function ParseBoolean(s: Option<string>): (b: bool)
    ensures b <==> s.Some? && |s.value| == 4 && forall k :: 0 <= k < 4 ==> LowerAscii(s.value[k]) == "true"[k]
  {
    s.Some? && |s.value| == 4
    && s.value[0] in {'t', 'T'} && s.value[1] in {'r', 'R'}
    && s.value[2] in {'u', 'U'} && s.value[3] in {'e', 'E'}
  }

  // ---------------------------------------------------------------------------
  // Properties
  // ---------------------------------------------------------------------------

  /** No piece contains a separator character. */
  lemma {:induction false} PiecesAvoidSeparators(s: string, seps: set<char>)
    ensures forall p, k :: p in Pieces(s, seps) && 0 <= k < |p| ==> p[k] !in seps
  {
    if s != [] {
      var rest := Pieces(s[1..], seps);
      PiecesAvoidSeparators(s[1..], seps);
      assert rest[0] in rest;
      assert forall p :: p in rest[1..] ==> p in rest;
    }
  }

  /** A string without separators is a single piece. */
  lemma {:induction false} PiecesOfPlainString(s: string, seps: set<char>)
    requires forall k :: 0 <= k < |s| ==> s[k] !in seps
    ensures Pieces(s, seps) == [s]
  {
    if s != [] {
      PiecesOfPlainString(s[1..], seps);
      assert [s[0]] + s[1..] == s;
    }
  }

  /** Splitting a string at one separator character splits its two halves. */
  lemma {:induction false} PiecesAppend(a: string, sep: char, b: string, seps: set<char>)
    requires sep in seps
    ensures Pieces(a + [sep] + b, seps) == Pieces(a, seps) + Pieces(b, seps)
  {
    if a == [] {
      assert [] + [sep] + b == [sep] + b;
      assert ([sep] + b)[1..] == b;
    } else {
      assert (a + [sep] + b)[1..] == a[1..] + [sep] + b;
      PiecesAppend(a[1..], sep, b, seps);
    }
  }

  /** Joining words that hold no separator and splitting at the separators again gives back the words. */
  lemma {:induction false} SplitJoin(ws: seq<string>, sep: char, seps: set<char>)
    requires |ws| >= 1 && sep in seps
    requires forall w, k :: w in ws && 0 <= k < |w| ==> w[k] !in seps
    ensures Pieces(Join(ws, sep), seps) == ws
  {
    var last := ws[|ws| - 1];
    assert last in ws;
    PiecesOfPlainString(last, seps);
    if |ws| > 1 {
      var init := ws[..|ws| - 1];
      assert init + [last] == ws;
      assert forall w :: w in init ==> w in ws;
      SplitJoin(init, sep, seps);
      PiecesAppend(Join(init, sep), sep, last, seps);
    }
  }

  /** Nonempty words joined with a blank split back into the same words at whitespace. */
  lemma SplitWhitespaceJoin(ws: seq<string>)
    requires |ws| >= 1
    requires forall w :: w in ws ==> w != []
    requires forall w, k :: w in ws && 0 <= k < |w| ==> w[k] !in Whitespace
    ensures Join(ws, ' ') != [] && Join(ws, ' ')[0] !in Whitespace && Join(ws, ' ')[|Join(ws, ' ')| - 1] !in Whitespace
    ensures SplitWhitespace(Join(ws, ' ')) == ws
  {
    assert forall i :: 0 <= i < |ws| ==> ws[i] in ws;
    JoinEnds(ws, ' ');
    assert ws[0] in ws && ws[|ws| - 1] in ws;
    SplitJoin(ws, ' ', Whitespace);
    NonEmptyKeepsNonEmpty(ws);
  }

  /** A join of nonempty words starts with the first word's first character and ends with the last word's last one. */
  lemma {:induction false} JoinEnds(ws: seq<string>, sep: char)
    requires |ws| >= 1
    requires forall i :: 0 <= i < |ws| ==> ws[i] != []
    ensures |Join(ws, sep)| >= 1
    ensures Join(ws, sep)[0] == ws[0][0]
    ensures Join(ws, sep)[|Join(ws, sep)| - 1] == ws[|ws| - 1][|ws[|ws| - 1]| - 1]
  {
    if |ws| > 1 {
      var init := ws[..|ws| - 1];
      JoinEnds(init, sep);
      assert init[0] == ws[0];
    }
  }

  /** Dropping the empty strings from a sequence without any leaves it as it is. */
  lemma {:induction false} NonEmptyKeepsNonEmpty(ps: seq<string>)
    requires forall p :: p in ps ==> p != []
    ensures NonEmpty(ps) == ps
  {
    if ps != [] {
      assert ps[0] in ps;
      assert forall p :: p in ps[1..] ==> p in ps;
      NonEmptyKeepsNonEmpty(ps[1..]);
    }
  }

  /** A join holds only characters of its words and the separator. */
  lemma {:induction false} JoinAvoids(ws: seq<string>, sep: char, avoid: set<char>)
    requires sep !in avoid
    requires forall w, k :: w in ws && 0 <= k < |w| ==> w[k] !in avoid
    ensures forall k :: 0 <= k < |Join(ws, sep)| ==> Join(ws, sep)[k] !in avoid
  {
    if |ws| > 1 {
      var init := ws[..|ws| - 1];
      assert forall w :: w in init ==> w in ws;
      assert ws[|ws| - 1] in ws;
      JoinAvoids(init, sep, avoid);
    } else if |ws| == 1 {
      assert ws[0] in ws;
    }
  }

  /** The words of a string that is not blank: nonempty, free of whitespace, and at least one. */
  lemma WordsOfNonBlank(t: string)
    requires t != [] && t[0] !in Whitespace && t[|t| - 1] !in Whitespace
    ensures |SplitWhitespace(t)| >= 1
    ensures forall w :: w in SplitWhitespace(t) ==> w != []
    ensures forall w, k :: w in SplitWhitespace(t) && 0 <= k < |w| ==> w[k] !in Whitespace
  {
    PiecesAvoidSeparators(t, Whitespace);
    FirstPieceOfPlainStart(t, Whitespace);
  }

  lemma FirstPieceOfPlainStart(s: string, seps: set<char>)
    requires s != [] && s[0] !in seps
    ensures |NonEmpty(Pieces(s, seps))| >= 1
  {
    var rest := Pieces(s[1..], seps);
    assert Pieces(s, seps)[0] == [s[0]] + rest[0];
  }
}
