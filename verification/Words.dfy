/** Cutting text at separators and joining words. */
module Words {
  import opened Sequences

  predicate OccursAt<T(==)>(s: seq<T>, pattern: seq<T>, i: nat) {
    i + |pattern| <= |s| && s[i..i + |pattern|] == pattern
  }

  predicate Solid(w: string, white: char -> bool) {
    forall i | 0 <= i < |w| :: !white(w[i])
  }

  /** The pieces between separators; one more than there are separators. */
  function Split<T>(s: seq<T>, separates: T -> bool): (pieces: seq<seq<T>>)
    ensures |pieces| > 0
    decreases |s|
  {
    if s == [] then [[]]
    else
      var rest := Split(s[1..], separates);
      if separates(s[0]) then [[]] + rest else [[s[0]] + rest[0]] + rest[1..]
  }

  /** No piece holds a separator. */
  lemma {:induction false} PiecesFree<T>(s: seq<T>, separates: T -> bool, k: nat, i: nat)
    requires k < |Split(s, separates)| && i < |Split(s, separates)[k]|
    ensures !separates(Split(s, separates)[k][i]) && Split(s, separates)[k][i] in s
    decreases |s|
  {
    if s != [] {
      var rest := Split(s[1..], separates);
      if separates(s[0]) {
        assert Split(s, separates)[k] == rest[k - 1];
        PiecesFree(s[1..], separates, k - 1, i);
      } else if k > 0 {
        assert Split(s, separates)[k] == rest[k];
        PiecesFree(s[1..], separates, k, i);
      } else if i > 0 {
        assert Split(s, separates)[0][i] == rest[0][i - 1];
        PiecesFree(s[1..], separates, 0, i - 1);
      }
    }
  }

  function NonEmpty(pieces: seq<string>): seq<string> {
    if pieces == [] then []
    else if pieces[0] == "" then NonEmpty(pieces[1..])
    else [pieces[0]] + NonEmpty(pieces[1..])
  }

  function SplitWhitespace(s: string, white: char -> bool): seq<string> {
    NonEmpty(Split(s, white))
  }

  function Join(words: seq<string>, glue: string): string {
    if words == [] then ""
    else if |words| == 1 then words[0]
    else words[0] + glue + Join(words[1..], glue)
  }

  lemma SplitOne<T>(t: T, separates: T -> bool)
    requires !separates(t)
    ensures Split([t], separates) == [[t]]
  {
    var rest := Split([t][1..], separates);
    assert rest == [[]] && rest[1..] == [] && [t] + rest[0] == [t];
  }

  lemma SplitTwo<T>(t: T, separator: T, rest: seq<T>, separates: T -> bool)
    requires !separates(t) && separates(separator)
    ensures Split([t, separator] + rest, separates) == [[t]] + Split(rest, separates)
  {
    var s := [t, separator] + rest;
    assert s[1..][1..] == rest;
    assert Split(s[1..], separates) == [[]] + Split(rest, separates);
    assert [t] + [] == [t];
  }

  lemma {:induction false} PieceOf(pieces: seq<string>, w: string)
    requires w in NonEmpty(pieces)
    ensures w != "" && w in pieces
  {
    if pieces[0] == "" || w in NonEmpty(pieces[1..]) {
      PieceOf(pieces[1..], w);
    }
  }

  lemma SplitWordFree(s: string, white: char -> bool, w: string)
    requires w in SplitWhitespace(s, white)
    ensures w != "" && Solid(w, white) && forall c | c in w :: c in s
  {
    var pieces := Split(s, white);
    PieceOf(pieces, w);
    var k :| 0 <= k < |pieces| && pieces[k] == w;
    forall i | 0 <= i < |w|
      ensures !white(w[i]) && w[i] in s
    {
      PiecesFree(s, white, k, i);
    }
  }

  lemma {:induction false} WordAlone(w: string, white: char -> bool)
    requires Solid(w, white)
    ensures Split(w, white) == [w]
    decreases |w|
  {
    if w != "" {
      WordAlone(w[1..], white);
      assert [w[0]] + w[1..] == w;
    }
  }

  /** A separator-free piece ends at the next separator. */
  lemma PieceEnds(a: string, sep: char, b: string, white: char -> bool)
    requires Solid(a, white) && white(sep)
    ensures Split(a + [sep] + b, white) == [a] + Split(b, white)
  {
    WordAlone(a, white);
    SplitConcat(a, sep, b, white);
  }

  lemma OneWord(w: string, white: char -> bool)
    requires w != "" && Solid(w, white)
    ensures SplitWhitespace(w, white) == [w]
  {
    WordAlone(w, white);
    assert NonEmpty([w]) == [w] + NonEmpty([]);
  }

  lemma {:induction false} JoinSnoc(words: seq<string>, w: string, glue: string)
    requires words != []
    ensures Join(words + [w], glue) == Join(words, glue) + glue + w
  {
    var more := words + [w];
    assert more[1..] == words[1..] + [w];
    if |words| > 1 {
      JoinSnoc(words[1..], w, glue);
    }
  }

  lemma {:induction false} WordsOfJoin(words: seq<string>, white: char -> bool)
    requires white(' ')
    requires forall w | w in words :: w != "" && Solid(w, white)
    ensures SplitWhitespace(Join(words, " "), white) == words
    decreases |words|
  {
    if words == [] {
      assert NonEmpty([""]) == NonEmpty([]) == [];
    } else if |words| == 1 {
      assert words[0] in words;
      WordAlone(words[0], white);
      assert words[1..] == [] && words == [words[0]];
      assert NonEmpty(words) == [words[0]] + NonEmpty(words[1..]);
    } else {
      assert words[0] in words && forall w | w in words[1..] :: w in words;
      WordsOfJoin(words[1..], white);
      var tail := Join(words[1..], " ");
      WordAlone(words[0], white);
      SplitConcat(words[0], ' ', tail, white);
      var pieces := Split(words[0] + " " + tail, white);
      assert pieces[0] == words[0] && pieces[1..] == Split(tail, white);
      assert words == [words[0]] + words[1..];
    }
  }

  lemma {:induction false} NonEmptyConcat(a: seq<string>, b: seq<string>)
    ensures NonEmpty(a + b) == NonEmpty(a) + NonEmpty(b)
    decreases |a|
  {
    if a == [] {
      assert a + b == b;
    } else {
      assert (a + b)[1..] == a[1..] + b;
      NonEmptyConcat(a[1..], b);
    }
  }

  /** How a piece list starts with one more character in front. */
  function Grow(c: char, pieces: seq<string>, white: char -> bool): seq<string>
    requires |pieces| > 0
  {
    if white(c) then [""] + pieces else [[c] + pieces[0]] + pieces[1..]
  }

  lemma SplitGrow(c: char, t: string, white: char -> bool)
    ensures Split([c] + t, white) == Grow(c, Split(t, white), white)
  {
    assert ([c] + t)[1..] == t;
  }

  lemma GrowConcat(c: char, x: seq<string>, y: seq<string>, white: char -> bool)
    requires |x| > 0
    ensures Grow(c, x + y, white) == Grow(c, x, white) + y
  {
    assert (x + y)[1..] == x[1..] + y;
  }

  lemma {:induction false} SplitConcat(a: string, sep: char, b: string, white: char -> bool)
    requires white(sep)
    ensures Split(a + [sep] + b, white) == Split(a, white) + Split(b, white)
    decreases |a|
  {
    if a == "" {
      SplitGrow(sep, b, white);
      assert a + [sep] + b == [sep] + b;
    } else {
      var t := a[1..] + [sep] + b;
      assert a + [sep] + b == [a[0]] + t && a == [a[0]] + a[1..];
      SplitConcat(a[1..], sep, b, white);
      SplitGrow(a[0], t, white);
      SplitGrow(a[0], a[1..], white);
      GrowConcat(a[0], Split(a[1..], white), Split(b, white), white);
    }
  }

  /** A blank separates: the words before it, then the words after it. */
  lemma WordsConcat(a: string, b: string, white: char -> bool)
    requires white(' ')
    ensures SplitWhitespace(a + " " + b, white) == SplitWhitespace(a, white) + SplitWhitespace(b, white)
  {
    SplitConcat(a, ' ', b, white);
    NonEmptyConcat(Split(a, white), Split(b, white));
  }

  /** One more character ends the last piece or makes it longer. */
  lemma {:induction false} SplitSnoc(s: string, c: char, separates: char -> bool)
    ensures var pieces := Split(s, separates); var last := |pieces| - 1;
      Split(s + [c], separates) ==
        if separates(c) then pieces + [""] else pieces[..last] + [pieces[last] + [c]]
    decreases |s|
  {
    if s == "" {
      assert "" + [c] == [c] && [c] + "" == [c] && [c][1..] == "" && [""][..0] == [];
      assert Split("", separates) == [""];
    } else {
      var rest := Split(s[1..], separates);
      assert (s + [c])[1..] == s[1..] + [c];
      SplitSnoc(s[1..], c, separates);
      if separates(s[0]) {
        EmptyFirst(c, rest);
      } else {
        FirstLonger(s[0], c, rest);
      }
    }
  }

  lemma EmptyFirst(c: char, rest: seq<string>)
    requires rest != []
    ensures var pieces, last := [""] + rest, |rest| - 1;
      && [""] + (rest[..last] + [rest[last] + [c]]) == pieces[..last + 1] + [pieces[last + 1] + [c]]
      && [""] + (rest + [""]) == pieces + [""]
  {
    assert ([""] + rest)[..|rest|] == [""] + rest[..|rest| - 1];
  }

  lemma FirstLonger(first: char, c: char, rest: seq<string>)
    requires rest != []
    ensures var pieces, last := [[first] + rest[0]] + rest[1..], |rest| - 1;
            var more := rest[..last] + [rest[last] + [c]];
      && [[first] + more[0]] + more[1..] == pieces[..last] + [pieces[last] + [c]]
      && [[first] + (rest + [""])[0]] + (rest + [""])[1..] == pieces + [""]
  {
    if |rest| == 1 {
      Assoc([first], rest[0], [c]);
    }
  }

  /** The last piece is empty after a separator, and only there. */
  lemma {:induction false} LastPiece(s: string, separates: char -> bool)
    ensures var pieces := Split(s, separates);
      pieces[|pieces| - 1] == "" <==> s == "" || separates(s[|s| - 1])
    decreases |s|
  {
    if |s| > 1 {
      LastPiece(s[1..], separates);
    }
  }

  lemma NonEmptySnoc(pieces: seq<string>, piece: string)
    ensures NonEmpty(pieces + [piece]) == NonEmpty(pieces) + if piece == "" then [] else [piece]
  {
    NonEmptyConcat(pieces, [piece]);
    assert [piece][1..] == [];
  }

  // ---- Pieces by their places ----

  /** Characters `i` to `j` are a stretch without separators that could not be longer. */
  predicate Stretch<T(!new)>(s: seq<T>, separates: T -> bool, i: nat, j: nat) {
    && i <= j <= |s| && (forall k | i <= k < j :: !separates(s[k]))
    && (i > 0 ==> separates(s[i - 1])) && (j < |s| ==> separates(s[j]))
  }

  /** Where piece `k` starts. */
  function StartOf<T>(pieces: seq<seq<T>>, k: nat): nat
    requires k < |pieces|
  {
    if k == 0 then 0 else |pieces[0]| + 1 + StartOf(pieces[1..], k - 1)
  }

  lemma StretchLater<T(!new)>(s: seq<T>, separates: T -> bool, i: nat, j: nat)
    requires s != [] && Stretch(s[1..], separates, i, j) && (i > 0 || separates(s[0]))
    ensures Stretch(s, separates, i + 1, j + 1) && s[i + 1..j + 1] == s[1..][i..j]
  {
    assert s == [s[0]] + s[1..];
  }

  lemma StretchLonger<T(!new)>(s: seq<T>, separates: T -> bool, j: nat)
    requires s != [] && Stretch(s[1..], separates, 0, j) && !separates(s[0])
    ensures Stretch(s, separates, 0, j + 1) && s[0..j + 1] == [s[0]] + s[1..][0..j]
  {
  }

  lemma StartsLater<T>(pieces: seq<seq<T>>, rest: seq<seq<T>>, t: T, k: nat)
    requires 0 < k < |rest| == |pieces| && pieces[0] == [t] + rest[0] && pieces[1..] == rest[1..]
    ensures StartOf(pieces, k) == StartOf(rest, k) + 1 && pieces[k] == rest[k]
  {
    assert pieces[k] == pieces[1..][k - 1] && rest[k] == rest[1..][k - 1];
  }

  /** Piece `k` is the stretch where it stands. */
  predicate Placed<T(!new,==)>(s: seq<T>, separates: T -> bool, pieces: seq<seq<T>>, k: nat)
    requires k < |pieces|
  {
    var i := StartOf(pieces, k);
    Stretch(s, separates, i, i + |pieces[k]|) && s[i..i + |pieces[k]|] == pieces[k]
  }

  lemma PlacedAfter<T(!new)>(s: seq<T>, separates: T -> bool, pieces: seq<seq<T>>, rest: seq<seq<T>>, k: nat)
    requires s != [] && separates(s[0]) && pieces == [[]] + rest && k < |rest|
    requires Placed(s[1..], separates, rest, k)
    ensures Placed(s, separates, pieces, k + 1)
  {
    assert pieces[1..] == rest;
    StretchLater(s, separates, StartOf(rest, k), StartOf(rest, k) + |rest[k]|);
  }

  lemma PlacedLater<T(!new)>(s: seq<T>, separates: T -> bool, pieces: seq<seq<T>>, rest: seq<seq<T>>, k: nat)
    requires s != [] && 0 < k < |rest| == |pieces| && pieces[0] == [s[0]] + rest[0] && pieces[1..] == rest[1..]
    requires Placed(s[1..], separates, rest, k)
    ensures Placed(s, separates, pieces, k)
  {
    StartsLater(pieces, rest, s[0], k);
    StartPositive(rest, k);
    StretchLater(s, separates, StartOf(rest, k), StartOf(rest, k) + |rest[k]|);
  }

  lemma PlacedFirst<T(!new)>(s: seq<T>, separates: T -> bool, pieces: seq<seq<T>>, rest: seq<seq<T>>)
    requires s != [] && !separates(s[0]) && |rest| == |pieces| > 0 && pieces[0] == [s[0]] + rest[0]
    requires Placed(s[1..], separates, rest, 0)
    ensures Placed(s, separates, pieces, 0)
  {
    StretchLonger(s, separates, |rest[0]|);
  }

  lemma PlacedEmpty<T(!new)>(s: seq<T>, separates: T -> bool, pieces: seq<seq<T>>)
    requires pieces != [] && pieces[0] == [] && (s != [] ==> separates(s[0]))
    ensures Placed(s, separates, pieces, 0)
  {
  }

  /** Every piece is such a stretch. */
  lemma {:induction false} PieceIsStretch<T(!new)>(s: seq<T>, separates: T -> bool, pieces: seq<seq<T>>, k: nat)
    requires pieces == Split(s, separates) && k < |pieces|
    ensures Placed(s, separates, pieces, k)
    decreases |s|
  {
    if s == [] || (separates(s[0]) && k == 0) {
      PlacedEmpty(s, separates, pieces);
    } else {
      var rest := Split(s[1..], separates);
      PieceIsStretch(s[1..], separates, rest, if separates(s[0]) then k - 1 else k);
      if separates(s[0]) {
        PlacedAfter(s, separates, pieces, rest, k - 1);
      } else if k > 0 {
        PlacedLater(s, separates, pieces, rest, k);
      } else {
        PlacedFirst(s, separates, pieces, rest);
      }
    }
  }

  lemma StartPositive<T>(pieces: seq<seq<T>>, k: nat)
    requires 0 < k < |pieces|
    ensures StartOf(pieces, k) > 0
  {
  }

  lemma StretchesAgree<T(!new)>(s: seq<T>, separates: T -> bool, i: nat, j: nat, k: nat)
    requires Stretch(s, separates, i, j) && Stretch(s, separates, i, k)
    ensures j == k
  {
  }

  /** Every such stretch that is not empty is a piece. */
  lemma {:induction false} StretchIsPiece<T(!new)>(s: seq<T>, separates: T -> bool, i: nat, j: nat, pieces: seq<seq<T>>)
    returns (k: nat)
    requires Stretch(s, separates, i, j) && i < j && pieces == Split(s, separates)
    ensures k < |pieces| && StartOf(pieces, k) == i && pieces[k] == s[i..j]
    decreases |s|
  {
    if i == 0 {
      k := 0;
      PieceIsStretch(s, separates, pieces, 0);
      StretchesAgree(s, separates, 0, j, |pieces[0]|);
    } else {
      var t, rest := s[1..], Split(s[1..], separates);
      assert s == [s[0]] + t;
      k := StretchIsPiece(t, separates, i - 1, j - 1, rest);
      assert t[i - 1..j - 1] == s[i..j];
      if separates(s[0]) {
        assert pieces[1..] == rest;
        k := k + 1;
      } else {
        assert pieces[1..] == rest[1..];
      }
    }
  }

  lemma {:induction false} StartsRise<T>(pieces: seq<seq<T>>, k: nat, l: nat)
    requires k < l < |pieces|
    ensures StartOf(pieces, k) + |pieces[k]| < StartOf(pieces, l)
  {
    if k > 0 {
      StartsRise(pieces[1..], k - 1, l - 1);
    }
  }
}
