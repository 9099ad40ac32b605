/** The navigation bar's avatar initials. */
module Navigation {
  import opened Strings

  /** `parts.map(n => n[0]).join('')`: the first character of each piece. An empty
      piece maps to `undefined`, which `join` prints as nothing. */
  function FirstChars(parts: seq<string>): (r: string)
    ensures |r| <= |parts|
    ensures (forall i :: 0 <= i < |parts| ==> parts[i] != "") ==> |r| == |parts| && forall i :: 0 <= i < |parts| ==> r[i] == parts[i][0]
  {
    if parts == [] then ""
    else (if parts[0] == "" then "" else [parts[0][0]]) + FirstChars(parts[1..])
  }

  /** `getInitials`: "?" for an empty name; otherwise the first letters of the
      space-separated words, upper-cased, at most two of them. */
  function Initials(name: string): (r: string)
    ensures name == "" ==> r == "?"
    ensures name != "" ==> |r| <= 2
    ensures name != "" ==> r <= Upper(FirstChars(Split(name, ' ')))
    ensures name != "" ==> |r| == 2 || r == Upper(FirstChars(Split(name, ' ')))
  {
    if name == "" then "?"
    else
      var all := Upper(FirstChars(Split(name, ' ')));
      if |all| <= 2 then all else all[..2]
  }

  /** A name made of words joined by single spaces gets the upper-cased first
      letters of its first two words. */
  lemma InitialsOfWords(words: seq<string>)
    requires |words| >= 1
    requires forall i :: 0 <= i < |words| ==> words[i] != "" && ' ' !in words[i]
    ensures Join(words, " ") != ""
    ensures |words| == 1 ==> Initials(Join(words, " ")) == [UpperChar(words[0][0])]
    ensures |words| >= 2 ==> Initials(Join(words, " ")) == [UpperChar(words[0][0]), UpperChar(words[1][0])]
  {
    JoinNotEmpty(words);
    WordsFromJoin(words);
    InitialsOfPieces(Join(words, " "), words);
  }

  /** The initials of a name whose pieces are all non-empty. */
  lemma InitialsOfPieces(name: string, words: seq<string>)
    requires name != "" && Split(name, ' ') == words && |words| >= 1
    requires forall i :: 0 <= i < |words| ==> words[i] != ""
    ensures |words| == 1 ==> Initials(name) == [UpperChar(words[0][0])]
    ensures |words| >= 2 ==> Initials(name) == [UpperChar(words[0][0]), UpperChar(words[1][0])]
  {
    var all := Upper(FirstChars(words));
    assert |all| == |words|;
    assert all[0] == UpperChar(words[0][0]);
    if |words| >= 2 {
      assert all[1] == UpperChar(words[1][0]);
      assert all[..2] == [UpperChar(words[0][0]), UpperChar(words[1][0])];
    } else {
      assert all == [UpperChar(words[0][0])];
    }
  }

  /** Splitting a single-space join on spaces gives back the words. */
  lemma WordsFromJoin(words: seq<string>)
    requires |words| >= 1
    requires forall i :: 0 <= i < |words| ==> ' ' !in words[i]
    ensures Split(Join(words, " "), ' ') == words
  {
    assert [' '] == " ";
    SplitJoin(words, ' ');
  }

  /** Joining non-empty words gives a non-empty string. */
  lemma JoinNotEmpty(words: seq<string>)
    requires |words| >= 1 && words[0] != ""
    ensures Join(words, " ") != ""
  {
    if |words| > 1 {
      assert Join(words, " ")[0] == words[0][0];
    }
  }

  /** Extra spaces between words make empty pieces, which add no letter: a name
      typed with a double space has the same initials as with a single one. */
  lemma DoubleSpaceIgnored(x: string, y: string)
    requires x != "" && y != "" && ' ' !in x && ' ' !in y
    ensures Initials(x + "  " + y) == Initials(x + " " + y)
  {
    SplitDoubleSpace(x, y);
    SplitSingleSpace(x, y);
    assert FirstChars([x, "", y]) == FirstChars([x, y]) by {
      assert [x, "", y][1..] == ["", y];
      assert ["", y][1..] == [y];
      assert [x, y][1..] == [y];
    }
  }

  /** Two spaces between two words leave an empty piece between them. */
  lemma SplitDoubleSpace(x: string, y: string)
    requires ' ' !in x && ' ' !in y
    ensures Split(x + "  " + y, ' ') == [x, "", y]
  {
    SplitAtFirst(x, ' ', " " + y);
    SplitAtFirst("", ' ', y);
    assert x + "  " + y == x + [' '] + (" " + y);
    assert " " + y == "" + [' '] + y;
    assert Split(y, ' ') == [y];
  }

  /** One space between two words separates them. */
  lemma SplitSingleSpace(x: string, y: string)
    requires ' ' !in x && ' ' !in y
    ensures Split(x + " " + y, ' ') == [x, y]
  {
    SplitAtFirst(x, ' ', y);
    assert x + " " + y == x + [' '] + y;
    assert Split(y, ' ') == [y];
  }

  /** A name of spaces only is not empty, so it skips the "?" and its avatar shows
      nothing at all. */
  lemma BlankNameHasNoInitials()
    ensures Initials(" ") == ""
  {
    SplitAtFirst("", ' ', "");
    assert " " == "" + [' '] + "";
    assert Split("", ' ') == [""];
    assert Split(" ", ' ') == ["", ""];
  }
}
