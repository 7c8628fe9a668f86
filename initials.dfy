/** The avatar initials of src/pages/Profile.jsx and src/pages/RegisterUser.jsx:
    `names = name.split(' ')`, then `names[0][0] + names[1][0]` when there are
    several parts and `names[0][0]` otherwise, with JS's `undefined` for a
    missing character and JS's `+` on the results. */
module Initials {
  import opened JsText
  import opened Paging

  /** RegisterUser's `getInitials`, exactly as written. */
  function SplitInitials(name: string): (v: JsValue)
    ensures |Split(name, ' ')| == 1 ==> v == CharAt(name, 0)
  {
    var names := Split(name, ' ');
    if |names| > 1 then Plus(CharAt(names[0], 0), CharAt(names[1], 0))
    else
      SplitNoSeparatorCase(name);
      CharAt(names[0], 0)
  }

  /** A split into one part means there was no separator. */
  lemma SplitNoSeparatorCase(name: string)
    ensures |Split(name, ' ')| == 1 ==> Split(name, ' ')[0] == name
  {
    SplitJoin(name, ' ');
  }

  /** Profile's `getInitials`: the same, after `if (!name) return ""`. */
  function ProfileInitials(name: string): (v: JsValue)
    ensures name == "" ==> v == Str("")
    ensures name != "" ==> v == SplitInitials(name)
  {
    if name == "" then Str("") else SplitInitials(name)
  }

  /** Two words separated by one space give the first letter of each. */
  lemma TwoWordInitials(first: string, second: string, tail: string)
    requires first != "" && second != "" && ' ' !in first && ' ' !in second
    requires tail == "" || tail[0] == ' '
    ensures SplitInitials(first + " " + second + tail) == Str([first[0], second[0]])
    ensures ProfileInitials(first + " " + second + tail) == Str([first[0], second[0]])
  {
    var name := first + " " + second + tail;
    assert name == first + [' '] + (second + tail);
    SplitAtFirst(first, ' ', second + tail);
    SplitHead(second, ' ', tail);
  }

  /** A single word gives its first character; the empty name gives `undefined`
      here and `""` on the profile page. */
  lemma OneWordInitials(word: string)
    requires ' ' !in word
    ensures word != "" ==> SplitInitials(word) == Str([word[0]])
    ensures word != "" ==> ProfileInitials(word) == Str([word[0]])
    ensures SplitInitials("") == Undefined && ProfileInitials("") == Str("")
  {
    SplitNoSeparator(word, ' ');
    SplitNoSeparator("", ' ');
  }

  /** The split of a word followed by one space. */
  lemma TrailingSpaceSplit(word: string)
    requires ' ' !in word
    ensures Split(word + " ", ' ') == [word, ""]
  {
    SplitNoSeparator("", ' ');
    SplitAtFirst(word, ' ', "");
    assert word + " " == word + [' '] + "";
  }

  /** A trailing space turns the second initial into the text "undefined":
      "Ana " gives "Aundefined". */
  lemma TrailingSpaceInitials(word: string)
    requires word != "" && ' ' !in word
    ensures SplitInitials(word + " ") == Str([word[0]] + "undefined")
    ensures ProfileInitials(word + " ") == Str([word[0]] + "undefined")
  {
    TrailingSpaceSplit(word);
  }

  /** The split of two words separated by two spaces. */
  lemma DoubleSpaceSplit(first: string, second: string)
    requires ' ' !in first && ' ' !in second
    ensures Split(first + "  " + second, ' ') == [first, "", second]
  {
    SplitNoSeparator(second, ' ');
    SplitAtFirst("", ' ', second);
    assert " " + second == "" + [' '] + second;
    SplitAtFirst(first, ' ', " " + second);
    assert first + "  " + second == first + [' '] + (" " + second);
  }

  /** So do two spaces between the words: "Ana  Ruiz" gives "Aundefined". */
  lemma DoubleSpaceInitials(first: string, second: string)
    requires first != "" && ' ' !in first && ' ' !in second
    ensures SplitInitials(first + "  " + second) == Str([first[0]] + "undefined")
    ensures ProfileInitials(first + "  " + second) == Str([first[0]] + "undefined")
  {
    DoubleSpaceSplit(first, second);
  }

  /** A leading space gives "undefined" followed by the first letter: " Ana" gives "undefinedA". */
  lemma LeadingSpaceInitials(word: string)
    requires word != "" && ' ' !in word
    ensures SplitInitials(" " + word) == Str("undefined" + [word[0]])
    ensures ProfileInitials(" " + word) == Str("undefined" + [word[0]])
  {
    SplitNoSeparator(word, ' ');
    SplitAtFirst("", ' ', word);
    assert " " + word == "" + [' '] + word;
  }

  /** A name made of one space gives `NaN`. */
  lemma BlankInitials()
    ensures SplitInitials(" ") == NaN
    ensures ProfileInitials(" ") == NaN
  {
    SplitNoSeparator("", ' ');
    SplitAtFirst("", ' ', "");
    assert " " == "" + [' '] + "";
    assert Split(" ", ' ') == ["", ""];
  }

  predicate NonEmpty(w: string) {
    w != ""
  }

  /** The words of a name: its space-separated parts that are not empty. */
  function Words(name: string): (words: seq<string>)
  {
    Filter(Split(name, ' '), NonEmpty)
  }

  lemma WordsAreWords(name: string)
    ensures forall k :: 0 <= k < |Words(name)| ==> Words(name)[k] != "" && ' ' !in Words(name)[k]
    ensures forall k, j :: 0 <= k < |Words(name)| && 0 <= j < |Words(name)[k]| ==> Words(name)[k][j] in name
  {
    var parts := Split(name, ' ');
    var words := Words(name);
    FilterSatisfies(parts, NonEmpty);
    FilterCounts(parts, NonEmpty);
    SplitCharsFromInput(name, ' ');
    forall k | 0 <= k < |words| ensures ' ' !in words[k] && forall j :: 0 <= j < |words[k]| ==> words[k][j] in name {
      assert multiset(words)[words[k]] > 0;
      assert words[k] in parts;
      var i :| 0 <= i < |parts| && parts[i] == words[k];
    }
  }

  /** The initials the helpers evidently mean: the first characters of the
      first two words, ignoring extra spaces; "" for a name without words. */
  function WordInitials(name: string): (r: string)
    ensures |r| <= 2 && |r| == Min(2, |Words(name)|)
    ensures forall i :: 0 <= i < |r| ==> r[i] in name && r[i] != ' '
  {
    WordsAreWords(name);
    var words := Words(name);
    if |words| >= 2 then
      assert words[0][0] in name && words[1][0] in name;
      [words[0][0], words[1][0]]
    else if |words| == 1 then
      assert words[0][0] in name;
      [words[0][0]]
    else ""
  }

  /** On a name without leading, trailing or doubled spaces the helpers as
      written already give the intended initials. */
  lemma InitialsAgreeOnTidyNames(name: string)
    requires name != ""
    requires forall k :: 0 <= k < |Split(name, ' ')| ==> Split(name, ' ')[k] != ""
    ensures ProfileInitials(name) == Str(WordInitials(name))
    ensures SplitInitials(name) == Str(WordInitials(name))
  {
    var parts := Split(name, ' ');
    FilterKeepsAll(parts, NonEmpty);
    assert Words(name) == parts;
  }

  /** With a trailing space the intended initials are the single first letter. */
  lemma WordInitialsTrailingSpace(word: string)
    requires word != "" && ' ' !in word
    ensures WordInitials(word + " ") == [word[0]]
  {
    TrailingSpaceSplit(word);
    var parts := Split(word + " ", ' ');
    assert parts[1..] == [""] && parts[1..][1..] == [];
    assert Filter(parts[1..], NonEmpty) == [];
    assert Words(word + " ") == [word] + Filter(parts[1..], NonEmpty);
  }

  /** With two spaces between the words the intended initials are both first letters. */
  lemma WordInitialsDoubleSpace(first: string, second: string)
    requires first != "" && second != "" && ' ' !in first && ' ' !in second
    ensures WordInitials(first + "  " + second) == [first[0], second[0]]
  {
    DoubleSpaceSplit(first, second);
    var parts := Split(first + "  " + second, ' ');
    assert parts[1..] == ["", second] && parts[1..][1..] == [second] && parts[1..][1..][1..] == [];
    assert Filter(parts[1..][1..], NonEmpty) == [second];
    assert Filter(parts[1..], NonEmpty) == [second];
    assert Words(first + "  " + second) == [first] + Filter(parts[1..], NonEmpty);
  }

  /** A name of spaces only has no initials. */
  lemma WordInitialsBlank()
    ensures WordInitials(" ") == ""
  {
    SplitNoSeparator("", ' ');
    SplitAtFirst("", ' ', "");
    assert " " == "" + [' '] + "";
    var parts := Split(" ", ' ');
    assert parts == ["", ""];
    assert parts[1..] == [""] && parts[1..][1..] == [];
    assert Words(" ") == [];
  }
}
