/** What replacing a text by another amounts to. */
module Replacing {
  import opened Text

  /** sep.join(pieces) */
  function Interleaved(pieces: seq<string>, sep: string): string
    requires pieces != []
  {
    if |pieces| == 1 then pieces[0] else pieces[0] + (sep + Interleaved(pieces[1..], sep))
  }

  /** The text has no occurrence of the needle. */
  ghost predicate Lacks(s: string, needle: string) {
    forall j :: 0 <= j <= |s| ==> !StartsWith(s[j..], needle)
  }

  /** The needle right behind the piece is its first occurrence. */
  ghost predicate UpTo(piece: string, needle: string) {
    forall j :: 0 <= j < |piece| ==> !StartsWith((piece + needle)[j..], needle)
  }

  /** The pieces between the occurrences, found from the left and not overlapping. */
  ghost predicate Cut(s: string, needle: string, pieces: seq<string>) {
    && pieces != [] && s == Interleaved(pieces, needle)
    && (forall i :: 0 <= i < |pieces| - 1 ==> UpTo(pieces[i], needle)) && Lacks(pieces[|pieces| - 1], needle)
  }

  lemma LacksIff(s: string, needle: string)
    ensures Lacks(s, needle) <==> !Contains(s, needle)
  {
    if Contains(s, needle) {
      var i := ContainsWhere(s, needle);
    } else {
      forall j | 0 <= j <= |s| ensures !StartsWith(s[j..], needle) {
        if StartsWith(s[j..], needle) {
          ContainsAt(s, needle, j);
        }
      }
    }
  }

  /** Whether a text starts with the needle shows in a beginning that is long enough. */
  lemma StartShows(a: string, b: string, needle: string)
    requires |needle| <= |a|
    ensures StartsWith(a + b, needle) <==> StartsWith(a, needle)
  {
    assert (a + b)[..|needle|] == a[..|needle|];
  }

  lemma UpToRest(piece: string, needle: string)
    requires piece != "" && UpTo(piece, needle)
    ensures UpTo(piece[1..], needle)
  {
    forall j | 0 <= j < |piece| - 1 ensures !StartsWith((piece[1..] + needle)[j..], needle) {
      assert (piece[1..] + needle)[j..] == (piece + needle)[j + 1..];
    }
  }

  lemma UpToMore(c: char, piece: string, needle: string)
    requires UpTo(piece, needle) && !StartsWith([c] + (piece + needle), needle)
    ensures UpTo([c] + piece, needle)
  {
    forall j | 0 <= j < |piece| + 1 ensures !StartsWith(([c] + piece + needle)[j..], needle) {
      if j == 0 {
        assert [c] + piece + needle == [c] + (piece + needle);
        assert ([c] + piece + needle)[0..] == [c] + (piece + needle);
      } else {
        assert ([c] + piece + needle)[j..] == (piece + needle)[j - 1..];
      }
    }
  }

  /** The text after the first piece and its occurrence. */
  lemma CutTail(pieces: seq<string>, needle: string)
    requires |pieces| > 1 && Cut(Interleaved(pieces, needle), needle, pieces)
    ensures Cut(Interleaved(pieces[1..], needle), needle, pieces[1..])
  {
  }

  /** The text after its first character. */
  lemma CutRest(pieces: seq<string>, needle: string)
    requires |pieces| > 1 && pieces[0] != "" && Cut(Interleaved(pieces, needle), needle, pieces)
    ensures var rest := [pieces[0][1..]] + pieces[1..];
      Cut(Interleaved(pieces, needle)[1..], needle, rest)
  {
    var rest := [pieces[0][1..]] + pieces[1..];
    UpToRest(pieces[0], needle);
    assert rest[1..] == pieces[1..];
    assert Interleaved(pieces, needle)[1..] == pieces[0][1..] + (needle + Interleaved(pieces[1..], needle));
  }

  lemma NotYet(pieces: seq<string>, needle: string)
    requires needle != "" && |pieces| > 1 && pieces[0] != "" && Cut(Interleaved(pieces, needle), needle, pieces)
    ensures !StartsWith(Interleaved(pieces, needle), needle)
  {
    var more := Interleaved(pieces[1..], needle);
    assert pieces[0] + (needle + more) == (pieces[0] + needle) + more;
    StartShows(pieces[0] + needle, more, needle);
    assert (pieces[0] + needle)[0..] == pieces[0] + needle;
  }

  lemma ReplaceHere(needle: string, more: string, new_: string)
    requires needle != ""
    ensures Replace(needle + more, needle, new_) == new_ + Replace(more, needle, new_)
  {
    assert (needle + more)[..|needle|] == needle && (needle + more)[|needle|..] == more;
  }

  lemma EmptyFirst(pieces: seq<string>, sep: string)
    requires |pieces| > 1 && pieces[0] == ""
    ensures Interleaved(pieces, sep) == sep + Interleaved(pieces[1..], sep)
  {
  }

  lemma FirstGrows(pieces: seq<string>, sep: string)
    requires |pieces| > 1 && pieces[0] != ""
    ensures Interleaved(pieces, sep) == [pieces[0][0]] + Interleaved([pieces[0][1..]] + pieces[1..], sep)
    ensures Interleaved(pieces, sep) != "" && Interleaved(pieces, sep)[0] == pieces[0][0]
  {
    var rest := [pieces[0][1..]] + pieces[1..];
    assert rest[1..] == pieces[1..] && pieces[0] == [pieces[0][0]] + rest[0];
  }

  lemma {:induction false} ReplaceOfCut(s: string, needle: string, new_: string, pieces: seq<string>)
    requires needle != "" && Cut(s, needle, pieces)
    ensures Replace(s, needle, new_) == Interleaved(pieces, new_)
    decreases |s|
  {
    if |pieces| == 1 {
      LacksIff(s, needle);
      ReplaceNothing(s, needle, new_);
    } else if pieces[0] == "" {
      var more := Interleaved(pieces[1..], needle);
      CutTail(pieces, needle);
      ReplaceOfCut(more, needle, new_, pieces[1..]);
      ReplaceHere(needle, more, new_);
      EmptyFirst(pieces, needle);
      EmptyFirst(pieces, new_);
    } else {
      NotYet(pieces, needle);
      CutRest(pieces, needle);
      ReplaceOfCut(s[1..], needle, new_, [pieces[0][1..]] + pieces[1..]);
      FirstGrows(pieces, needle);
      FirstGrows(pieces, new_);
    }
  }

  lemma {:induction false} CutExists(s: string, needle: string) returns (pieces: seq<string>)
    requires needle != ""
    ensures Cut(s, needle, pieces)
    decreases |s|
  {
    if StartsWith(s, needle) {
      var rest := CutExists(s[|needle|..], needle);
      pieces := [""] + rest;
      assert pieces[1..] == rest && s == needle + s[|needle|..];
      assert Interleaved(pieces, needle) == "" + (needle + Interleaved(rest, needle));
    } else if s == "" {
      pieces := [""];
    } else {
      var rest := CutExists(s[1..], needle);
      pieces := CutGrown(s, needle, rest);
    }
  }

  lemma CutGrown(s: string, needle: string, rest: seq<string>) returns (pieces: seq<string>)
    requires s != "" && needle != "" && !StartsWith(s, needle) && Cut(s[1..], needle, rest)
    ensures Cut(s, needle, pieces)
  {
    var first := [s[0]] + rest[0];
    pieces := [first] + rest[1..];
    assert pieces[1..] == rest[1..] && s == [s[0]] + s[1..];
    if |rest| == 1 {
      assert first == s;
      forall j | 0 <= j <= |s| ensures !StartsWith(s[j..], needle) {
        assert j > 0 ==> s[j..] == rest[0][j - 1..];
        assert s[0..] == s;
      }
    } else {
      var more := Interleaved(rest[1..], needle);
      assert s == first + (needle + more);
      assert first + (needle + more) == ([s[0]] + (rest[0] + needle)) + more;
      StartShows([s[0]] + (rest[0] + needle), more, needle);
      UpToMore(s[0], rest[0], needle);
    }
  }

  /** Every occurrence, found from the left and not overlapping, is replaced, and nothing else changes. */
  lemma ReplaceIff(s: string, needle: string, new_: string, r: string)
    requires needle != ""
    ensures Replace(s, needle, new_) == r <==> exists pieces :: Cut(s, needle, pieces) && r == Interleaved(pieces, new_)
  {
    var found := CutExists(s, needle);
    forall pieces | Cut(s, needle, pieces) ensures Replace(s, needle, new_) == Interleaved(pieces, new_) {
      ReplaceOfCut(s, needle, new_, pieces);
    }
  }
}
