/**
 The pattern that finds the head of a CREATE TABLE statement.

 A pattern is matched as a backtracking engine does: a repetition takes as much as it can and gives
 characters back one at a time, and an alternative is tried only when the one before it fails. `Reads`
 says which ends a pattern admits at all; the theorems show that the engine finds an end when there is
 one, and that this pattern never has two.
*/
module CreateHead {
  import opened Common

  predicate IsLetter(ch: char) { 'a' <= ch <= 'z' || 'A' <= ch <= 'Z' }

  predicate IsWordChar(ch: char) { ch == '_' || IsLetter(ch) || '0' <= ch <= '9' }

  /** The characters a pattern can repeat. */
  datatype Class = Blank | NameChar {
    predicate Has(ch: char) {
      match this
      case Blank => IsSpace(ch)
      case NameChar => IsWordChar(ch) || ch in ['`', '"', '.', '$', '{', '}']
    }
  }

  /** A pattern and what follows it. A repeated name is what the pattern captures. */
  datatype Pattern =
    | Matched
    | Boundary(rest: Pattern)
    | Keyword(word: string, rest: Pattern)
    | Repeat(of: Class, least: nat, rest: Pattern)
    | Either(first: Pattern, second: Pattern)

  const NAMED := Repeat(NameChar, 1, Repeat(Blank, 0, Keyword("(", Matched)))

  const GUARDED :=
    Keyword("IF", Repeat(Blank, 1, Keyword("NOT", Repeat(Blank, 1, Keyword("EXISTS", Repeat(Blank, 1, NAMED))))))

  /** `CREATE_TABLE_START_RE`. */
  const CREATE_TABLE :=
    Boundary(Keyword("CREATE", Repeat(Blank, 1, Keyword("TABLE", Repeat(Blank, 1, Either(GUARDED, NAMED))))))

  /** Where a match ends, and the name it captured. */
  datatype Match = Match(end: nat, name: string)

  // ----- Matching at one place -----

  /** A word starts or ends here; the character before counts even when the search starts here. */
  predicate AtBoundary(text: string, i: nat)
    requires i <= |text|
  {
    (i > 0 && IsWordChar(text[i - 1])) != (i < |text| && IsWordChar(text[i]))
  }

  /** A keyword, in upper or lower case. */
  predicate Says(text: string, i: nat, word: string) {
    i + |word| <= |text| && Upper(text[i..i + |word|]) == word
  }

  /** The end of the longest repetition. */
  function RunEnd(text: string, i: nat, of: Class): (j: nat)
    requires i <= |text|
    ensures i <= j <= |text|
    ensures forall k :: i <= k < j ==> of.Has(text[k])
    ensures j < |text| ==> !of.Has(text[j])
    decreases |text| - i
  {
    if i < |text| && of.Has(text[i]) then RunEnd(text, i + 1, of) else i
  }

  function Captured(of: Class, text: string, i: nat, j: nat, name: string): string
    requires i <= j <= |text|
  {
    if of == NameChar then text[i..j] else name
  }

  /** The match the engine settles on, if there is one. */
  function Try(p: Pattern, text: string, i: nat, name: string): (m: Option<Match>)
    requires i <= |text|
    decreases p, 0
  {
    match p
    case Matched => Some(Match(i, name))
    case Boundary(rest) => if AtBoundary(text, i) then Try(rest, text, i, name) else None
    case Keyword(word, rest) => if Says(text, i, word) then Try(rest, text, i + |word|, name) else None
    case Repeat(of, least, rest) => GiveBack(of, least, rest, text, i, RunEnd(text, i, of), name)
    case Either(first, second) =>
      var m := Try(first, text, i, name);
      if m.Some? then m else Try(second, text, i, name)
  }

  /** A repetition that has reached j: go on from there, or give a character back. */
  function GiveBack(of: Class, least: nat, rest: Pattern, text: string, i: nat, j: nat, name: string)
    : (m: Option<Match>)
    requires i <= j <= |text|
    decreases rest, j + 1
  {
    if j < i + least then None else
    var m := Try(rest, text, j, Captured(of, text, i, j, name));
    if m.Some? || j == i then m else GiveBack(of, least, rest, text, i, j - 1, name)
  }

  /** The first match at or after a place. */
  function Search(text: string, index: nat): Option<Match>
    requires index <= |text|
    decreases |text| - index
  {
    var m := Try(CREATE_TABLE, text, index, "");
    if m.Some? || index == |text| then m else Search(text, index + 1)
  }

  // ----- What a pattern admits -----

  /** The pattern can match here in this way. */
  ghost predicate Reads(p: Pattern, text: string, i: nat, name: string, m: Match)
    requires i <= |text|
    decreases p, 0
  {
    match p
    case Matched => m == Match(i, name)
    case Boundary(rest) => AtBoundary(text, i) && Reads(rest, text, i, name, m)
    case Keyword(word, rest) => Says(text, i, word) && Reads(rest, text, i + |word|, name, m)
    case Repeat(of, least, rest) => ReadsRun(of, least, rest, text, i, name, m)
    case Either(first, second) => Reads(first, text, i, name, m) || Reads(second, text, i, name, m)
  }

  /** A repetition can end anywhere in the run, once it is long enough. */
  ghost predicate ReadsRun(of: Class, least: nat, rest: Pattern, text: string, i: nat, name: string, m: Match)
    requires i <= |text|
    decreases rest, 1
  {
    exists j: nat :: i + least <= j <= RunEnd(text, i, of) && Reads(rest, text, j, Captured(of, text, i, j, name), m)
  }

  /** What the engine finds, the pattern admits. */
  lemma {:induction false} TryIsSound(p: Pattern, text: string, i: nat, name: string)
    requires i <= |text| && Try(p, text, i, name).Some?
    ensures Reads(p, text, i, name, Try(p, text, i, name).value)
    decreases p, 0
  {
    match p
    case Matched =>
    case Boundary(rest) => TryIsSound(rest, text, i, name);
    case Keyword(word, rest) => TryIsSound(rest, text, i + |word|, name);
    case Repeat(of, least, rest) => GiveBackIsSound(of, least, rest, text, i, RunEnd(text, i, of), name);
    case Either(first, second) =>
      if Try(first, text, i, name).Some? {
        TryIsSound(first, text, i, name);
      } else {
        TryIsSound(second, text, i, name);
      }
  }

  lemma {:induction false} GiveBackIsSound(
      of: Class, least: nat, rest: Pattern, text: string, i: nat, j: nat, name: string)
    requires i <= |text| && i <= j <= RunEnd(text, i, of) && GiveBack(of, least, rest, text, i, j, name).Some?
    ensures ReadsRun(of, least, rest, text, i, name, GiveBack(of, least, rest, text, i, j, name).value)
    decreases rest, j + 1
  {
    hide Captured, Try, Reads;
    if Try(rest, text, j, Captured(of, text, i, j, name)).Some? {
      TryIsSound(rest, text, j, Captured(of, text, i, j, name));
    } else {
      GiveBackIsSound(of, least, rest, text, i, j - 1, name);
    }
  }

  /** The engine finds something whenever the pattern admits something. */
  lemma {:induction false} TryIsComplete(p: Pattern, text: string, i: nat, name: string, m: Match)
    requires i <= |text| && Reads(p, text, i, name, m)
    ensures Try(p, text, i, name).Some?
    decreases p, 0
  {
    match p
    case Matched =>
    case Boundary(rest) => TryIsComplete(rest, text, i, name, m);
    case Keyword(word, rest) => TryIsComplete(rest, text, i + |word|, name, m);
    case Repeat(of, least, rest) =>
      var j: nat :| i + least <= j <= RunEnd(text, i, of) && Reads(rest, text, j, Captured(of, text, i, j, name), m);
      GiveBackIsComplete(of, least, rest, text, i, RunEnd(text, i, of), name, j, m);
    case Either(first, second) =>
      if Reads(first, text, i, name, m) {
        TryIsComplete(first, text, i, name, m);
      } else {
        TryIsComplete(second, text, i, name, m);
      }
  }

  lemma {:induction false} GiveBackIsComplete(
      of: Class, least: nat, rest: Pattern, text: string, i: nat, j: nat, name: string, k: nat, m: Match)
    requires i + least <= k <= j <= |text| && Reads(rest, text, k, Captured(of, text, i, k, name), m)
    ensures GiveBack(of, least, rest, text, i, j, name).Some?
    decreases rest, j + 1
  {
    if k == j {
      TryIsComplete(rest, text, j, Captured(of, text, i, j, name), m);
    } else {
      GiveBackIsComplete(of, least, rest, text, i, j - 1, name, k, m);
    }
  }

  // ----- One reading only -----

  /** No text that the pattern admits starts with a character of the class. */
  predicate Avoids(p: Pattern, of: Class) {
    match p
    case Matched => false
    case Boundary(rest) => Avoids(rest, of)
    case Keyword(word, _) => word != "" && !of.Has(word[0])
    case Repeat(other, least, rest) => other != of && (least > 0 || Avoids(rest, of))
    case Either(first, second) => Avoids(first, of) && Avoids(second, of)
  }

  lemma AvoidedKeyword(word: string, of: Class, text: string, i: nat)
    requires word != "" && !of.Has(word[0]) && i < |text| && of.Has(text[i])
    ensures !Says(text, i, word)
  {
    if i + |word| <= |text| {
      assert Upper(text[i..i + |word|])[0] == Upper([text[i]])[0];
    }
  }

  lemma {:induction false} AvoidedStart(p: Pattern, of: Class, text: string, i: nat, name: string, m: Match)
    requires Avoids(p, of) && i < |text| && of.Has(text[i])
    ensures !Reads(p, text, i, name, m)
  {
    match p
    case Boundary(rest) => AvoidedStart(rest, of, text, i, name, m);
    case Keyword(word, _) => AvoidedKeyword(word, of, text, i);
    case Repeat(other, least, rest) =>
      hide Reads, Avoids;
      if ReadsRun(other, least, rest, text, i, name, m) {
        var j: nat :| i + least <= j <= RunEnd(text, i, other)
          && Reads(rest, text, j, Captured(other, text, i, j, name), m);
        assert j == i;
        AvoidedStart(rest, of, text, i, Captured(other, text, i, i, name), m);
      }
    case Either(first, second) =>
      AvoidedStart(first, of, text, i, name, m);
      AvoidedStart(second, of, text, i, name, m);
  }

  /** Two alternatives that no text offers at once. */
  ghost predicate Exclusive(first: Pattern, second: Pattern) {
    forall text, i: nat, name, m, n ::
      i <= |text| && Reads(first, text, i, name, m) ==> !Reads(second, text, i, name, n)
  }

  /** Repetitions are followed by something else, and alternatives exclude each other. */
  ghost predicate Determinate(p: Pattern) {
    match p
    case Matched => true
    case Boundary(rest) => Determinate(rest)
    case Keyword(_, rest) => Determinate(rest)
    case Repeat(of, _, rest) => Avoids(rest, of) && Determinate(rest)
    case Either(first, second) => Exclusive(first, second) && Determinate(first) && Determinate(second)
  }

  /** A repetition followed by something else is read to its end. */
  lemma ReadsWholeRun(of: Class, least: nat, rest: Pattern, text: string, i: nat, name: string, m: Match)
    requires i <= |text| && Avoids(rest, of) && ReadsRun(of, least, rest, text, i, name, m)
    ensures var j := RunEnd(text, i, of); i + least <= j && Reads(rest, text, j, Captured(of, text, i, j, name), m)
  {
    hide Avoids, Reads, Captured;
    var j: nat :| i + least <= j <= RunEnd(text, i, of) && Reads(rest, text, j, Captured(of, text, i, j, name), m);
    if j < RunEnd(text, i, of) {
      AvoidedStart(rest, of, text, j, Captured(of, text, i, j, name), m);
    }
  }

  lemma {:induction false} OneReading(p: Pattern, text: string, i: nat, name: string, m: Match, n: Match)
    requires i <= |text| && Determinate(p) && Reads(p, text, i, name, m) && Reads(p, text, i, name, n)
    ensures m == n
  {
    match p
    case Matched =>
    case Boundary(rest) => OneReading(rest, text, i, name, m, n);
    case Keyword(word, rest) => OneReading(rest, text, i + |word|, name, m, n);
    case Repeat(of, least, rest) =>
      ReadsWholeRun(of, least, rest, text, i, name, m);
      ReadsWholeRun(of, least, rest, text, i, name, n);
      var j := RunEnd(text, i, of);
      OneReading(rest, text, j, Captured(of, text, i, j, name), m, n);
    case Either(first, second) =>
      if Reads(first, text, i, name, m) {
        OneReading(first, text, i, name, m, n);
      } else {
        OneReading(second, text, i, name, m, n);
      }
  }

  /** Two words with blanks between them. */
  lemma TwoWords(first: string, second: string, rest: Pattern, text: string, i: nat, name: string, m: Match)
    requires second != "" && !Blank.Has(second[0])
    requires i <= |text| && Reads(Keyword(first, Repeat(Blank, 1, Keyword(second, rest))), text, i, name, m)
    ensures Says(text, i, first)
    ensures var k := RunEnd(text, i + |first|, Blank); i + |first| < k && Says(text, k, second)
  {
    ReadsWholeRun(Blank, 1, Keyword(second, rest), text, i + |first|, name, m);
  }

  /** A name, and a word that no name holds. */
  lemma NameAndWord(word: string, rest: Pattern, text: string, i: nat, name: string, m: Match)
    requires word != "" && !Blank.Has(word[0]) && !NameChar.Has(word[0])
    requires i <= |text| && Reads(Repeat(NameChar, 1, Repeat(Blank, 0, Keyword(word, rest))), text, i, name, m)
    ensures Says(text, RunEnd(text, RunEnd(text, i, NameChar), Blank), word)
  {
    ReadsWholeRun(NameChar, 1, Repeat(Blank, 0, Keyword(word, rest)), text, i, name, m);
    var j := RunEnd(text, i, NameChar);
    ReadsWholeRun(Blank, 0, Keyword(word, rest), text, j, text[i..j], m);
  }

  lemma IfIsWhole(text: string, i: nat)
    requires Says(text, i, "IF") && i + 2 < RunEnd(text, i + 2, Blank)
    ensures RunEnd(text, i, NameChar) == i + 2
  {
    assert Upper(text[i..i + 2])[0] == 'I' && Upper(text[i..i + 2])[1] == 'F';
    assert Blank.Has(text[i + 2]);
    assert RunEnd(text, i + 1, NameChar) == i + 2;
  }

  /** A table cannot be named IF where IF NOT follows. */
  lemma GuardIsNoName()
    ensures Exclusive(GUARDED, NAMED)
  {
    hide Reads, RunEnd, Says;
    forall text, i: nat, name, m, n | i <= |text| && Reads(GUARDED, text, i, name, m)
      ensures !Reads(NAMED, text, i, name, n)
    {
      TwoWords("IF", "NOT", GUARDED.rest.rest.rest, text, i, name, m);
      IfIsWhole(text, i);
      if Reads(NAMED, text, i, name, n) {
        NameAndWord("(", Matched, text, i, name, n);
        NotBoth(text, RunEnd(text, i + 2, Blank));
      }
    }
  }

  lemma NotBoth(text: string, k: nat)
    ensures !(Says(text, k, "NOT") && Says(text, k, "("))
  {
    if k + 3 <= |text| {
      assert Upper(text[k..k + 3])[0] == Upper(text[k..k + 1])[0];
    }
  }

  lemma HeadIsDeterminate()
    ensures Determinate(CREATE_TABLE)
  {
    GuardIsNoName();
    var ending := GUARDED.rest.rest.rest.rest;
    assert Avoids(NAMED, Blank) && Determinate(NAMED);
    assert Determinate(ending);
    assert Avoids(GUARDED, Blank) && Determinate(GUARDED);
    var table := CREATE_TABLE.rest.rest.rest;
    assert Determinate(table);
  }

  /** The engine's answer at one place is the one reading the pattern admits there. */
  lemma HeadIff(text: string, i: nat, m: Match)
    requires i <= |text|
    ensures Try(CREATE_TABLE, text, i, "") == Some(m) <==> Reads(CREATE_TABLE, text, i, "", m)
  {
    hide Try, Reads;
    if Reads(CREATE_TABLE, text, i, "", m) {
      TryIsComplete(CREATE_TABLE, text, i, "", m);
      TryIsSound(CREATE_TABLE, text, i, "");
      HeadIsDeterminate();
      OneReading(CREATE_TABLE, text, i, "", m, Try(CREATE_TABLE, text, i, "").value);
    } else if Try(CREATE_TABLE, text, i, "").Some? {
      TryIsSound(CREATE_TABLE, text, i, "");
    }
  }

  /** The pattern ends in an opening parenthesis. */
  predicate EndsOpen(p: Pattern) {
    match p
    case Matched => false
    case Boundary(rest) => EndsOpen(rest)
    case Keyword(word, rest) => (word == "(" && rest == Matched) || EndsOpen(rest)
    case Repeat(_, _, rest) => EndsOpen(rest)
    case Either(first, second) => EndsOpen(first) && EndsOpen(second)
  }

  lemma {:induction false} ReadsToParenthesis(p: Pattern, text: string, i: nat, name: string, m: Match)
    requires i <= |text| && EndsOpen(p) && Reads(p, text, i, name, m)
    ensures i < m.end <= |text| && text[m.end - 1] == '('
  {
    match p
    case Boundary(rest) => ReadsToParenthesis(rest, text, i, name, m);
    case Keyword(word, rest) =>
      if word == "(" && rest == Matched {
        assert Upper(text[i..i + 1])[0] == '(';
      } else {
        ReadsToParenthesis(rest, text, i + |word|, name, m);
      }
    case Repeat(of, least, rest) =>
      var j: nat :| i + least <= j <= RunEnd(text, i, of) && Reads(rest, text, j, Captured(of, text, i, j, name), m);
      ReadsToParenthesis(rest, text, j, Captured(of, text, i, j, name), m);
    case Either(first, second) =>
      if Reads(first, text, i, name, m) {
        ReadsToParenthesis(first, text, i, name, m);
      } else {
        ReadsToParenthesis(second, text, i, name, m);
      }
  }

  /** The first place from `index` on where the pattern can be read. */
  ghost predicate FirstReading(text: string, index: nat, i: nat, m: Match) {
    && index <= i <= |text| && Reads(CREATE_TABLE, text, i, "", m)
    && forall k: nat, n :: index <= k < i ==> !Reads(CREATE_TABLE, text, k, "", n)
  }

  lemma ReadingIsLater(text: string, index: nat, i: nat, m: Match)
    requires index < |text| && forall n :: !Reads(CREATE_TABLE, text, index, "", n)
    ensures FirstReading(text, index, i, m) <==> FirstReading(text, index + 1, i, m)
  {
    hide Reads;
  }

  /** The search stops at the first place where the pattern can be read, with what is read there. */
  lemma {:induction false} SearchIff(text: string, index: nat, m: Match)
    requires index <= |text|
    ensures Search(text, index) == Some(m) <==> exists i: nat :: FirstReading(text, index, i, m)
    decreases |text| - index
  {
    hide Try, Reads;
    forall n ensures Try(CREATE_TABLE, text, index, "") == Some(n) <==> Reads(CREATE_TABLE, text, index, "", n) {
      HeadIff(text, index, n);
    }
    if Try(CREATE_TABLE, text, index, "").Some? {
      if Try(CREATE_TABLE, text, index, "") == Some(m) {
        assert FirstReading(text, index, index, m);
      }
    } else if index < |text| {
      SearchIff(text, index + 1, m);
      hide FirstReading;
      forall i: nat ensures FirstReading(text, index, i, m) <==> FirstReading(text, index + 1, i, m) {
        ReadingIsLater(text, index, i, m);
      }
      assert Search(text, index) == Search(text, index + 1);
      if Search(text, index + 1) == Some(m) {
        var i: nat :| FirstReading(text, index + 1, i, m);
        assert FirstReading(text, index, i, m);
      }
    }
  }

  lemma {:induction false} SearchEndsOpen(text: string, index: nat)
    requires index <= |text| && Search(text, index).Some?
    ensures var m := Search(text, index).value; index < m.end <= |text| && text[m.end - 1] == '('
  {
    hide Search, Reads;
    var m := Search(text, index).value;
    SearchIff(text, index, m);
    var i: nat :| FirstReading(text, index, i, m);
    ReadsToParenthesis(CREATE_TABLE, text, i, "", m);
  }

  // ----- Heads as they are written -----

  function Concat(words: seq<string>): string {
    if words == [] then "" else words[0] + Concat(words[1..])
  }

  /** The words spell out the pattern, one for each keyword and repetition, and `got` is the name among them. */
  ghost predicate Spells(p: Pattern, words: seq<string>, name: string, got: string) {
    match p
    case Matched => words == [] && got == name
    case Boundary(rest) => false
    case Keyword(word, rest) => words != [] && Upper(words[0]) == word && Spells(rest, words[1..], name, got)
    case Repeat(of, least, rest) =>
      && words != [] && |words[0]| >= least && (forall k :: 0 <= k < |words[0]| ==> of.Has(words[0][k]))
      && Spells(rest, words[1..], if of == NameChar then words[0] else name, got)
    case Either(first, second) => Spells(first, words, name, got) || Spells(second, words, name, got)
  }

  /** The words stand in the text at i. */
  predicate Stands(text: string, i: nat, words: seq<string>) {
    i + |Concat(words)| <= |text| && text[i..i + |Concat(words)|] == Concat(words)
  }

  lemma StandsFirst(text: string, i: nat, words: seq<string>)
    requires words != [] && Stands(text, i, words)
    ensures i + |words[0]| <= |text| && text[i..i + |words[0]|] == words[0]
    ensures Stands(text, i + |words[0]|, words[1..])
    ensures |Concat(words)| == |words[0]| + |Concat(words[1..])|
  {
    var all := Concat(words);
    var n := |words[0]|;
    assert all[..n] == words[0] && all[n..] == Concat(words[1..]);
    assert text[i..i + n] == text[i..i + |all|][..n];
    assert text[i + n..i + |all|] == text[i..i + |all|][n..];
  }

  lemma StandsMore(text: string, i: nat, word: string, words: seq<string>)
    requires i + |word| <= |text| && text[i..i + |word|] == word && Stands(text, i + |word|, words)
    ensures Stands(text, i, [word] + words) && |Concat([word] + words)| == |word| + |Concat(words)|
  {
    assert ([word] + words)[1..] == words;
    var n := i + |word|;
    var end := n + |Concat(words)|;
    assert text[i..end] == text[i..n] + text[n..end];
  }

  lemma StandsNone(text: string, i: nat)
    requires i <= |text|
    ensures Stands(text, i, []) && |Concat([])| == 0
  {
  }

  lemma {:induction false} RunReaches(text: string, i: nat, j: nat, of: Class)
    requires i <= j <= |text| && forall k :: i <= k < j ==> of.Has(text[k])
    ensures j <= RunEnd(text, i, of)
    decreases j - i
  {
    if i < j {
      RunReaches(text, i + 1, j, of);
    }
  }

  lemma RunStands(text: string, i: nat, word: string, of: Class)
    requires i + |word| <= |text| && text[i..i + |word|] == word && forall k :: 0 <= k < |word| ==> of.Has(word[k])
    ensures i + |word| <= RunEnd(text, i, of)
  {
    assert forall k :: i <= k < i + |word| ==> text[k] == word[k - i];
    RunReaches(text, i, i + |word|, of);
  }

  lemma {:induction false} SpelledIsRead(
      p: Pattern, text: string, i: nat, words: seq<string>, name: string, got: string)
    requires i <= |text| && Spells(p, words, name, got) && Stands(text, i, words)
    ensures Reads(p, text, i, name, Match(i + |Concat(words)|, got))
  {
    hide Stands, Concat;
    match p
    case Matched => StandsNone(text, i);
    case Keyword(word, rest) =>
      StandsFirst(text, i, words);
      SpelledIsRead(rest, text, i + |words[0]|, words[1..], name, got);
    case Repeat(of, least, rest) =>
      StandsFirst(text, i, words);
      RunStands(text, i, words[0], of);
      var j := i + |words[0]|;
      SpelledIsRead(rest, text, j, words[1..], Captured(of, text, i, j, name), got);
    case Either(first, second) =>
      if Spells(first, words, name, got) {
        SpelledIsRead(first, text, i, words, name, got);
      } else {
        SpelledIsRead(second, text, i, words, name, got);
      }
  }

  /** No boundary inside. */
  predicate Unbounded(p: Pattern) {
    match p
    case Matched => true
    case Boundary(_) => false
    case Keyword(_, rest) => Unbounded(rest)
    case Repeat(_, _, rest) => Unbounded(rest)
    case Either(first, second) => Unbounded(first) && Unbounded(second)
  }

  lemma {:induction false} ReadIsSpelled(p: Pattern, text: string, i: nat, name: string, m: Match)
    returns (words: seq<string>)
    requires i <= |text| && Unbounded(p) && Reads(p, text, i, name, m)
    ensures Spells(p, words, name, m.name) && Stands(text, i, words) && m.end == i + |Concat(words)|
  {
    hide Stands, Concat;
    match p
    case Matched =>
      words := [];
      StandsNone(text, i);
    case Keyword(word, rest) =>
      var later := ReadIsSpelled(rest, text, i + |word|, name, m);
      var first := text[i..i + |word|];
      StandsMore(text, i, first, later);
      words := [first] + later;
      assert words[1..] == later;
    case Repeat(of, least, rest) =>
      var j: nat :| i + least <= j <= RunEnd(text, i, of) && Reads(rest, text, j, Captured(of, text, i, j, name), m);
      var later := ReadIsSpelled(rest, text, j, Captured(of, text, i, j, name), m);
      StandsMore(text, i, text[i..j], later);
      words := [text[i..j]] + later;
      assert words[1..] == later;
    case Either(first, second) =>
      if Reads(first, text, i, name, m) {
        words := ReadIsSpelled(first, text, i, name, m);
      } else {
        words := ReadIsSpelled(second, text, i, name, m);
      }
  }

  /** The pattern is written out at this place, with the name and the end of the match. */
  ghost predicate WrittenAs(p: Pattern, text: string, i: nat, words: seq<string>, m: Match) {
    Spells(p, words, "", m.name) && Stands(text, i, words) && m.end == i + |Concat(words)|
  }

  /** What a pattern without boundaries admits is what can be spelled out with it. */
  lemma ReadsIff(p: Pattern, text: string, i: nat, m: Match)
    requires i <= |text| && Unbounded(p)
    ensures Reads(p, text, i, "", m) <==> exists words :: WrittenAs(p, text, i, words, m)
  {
    hide Reads, Spells, Stands, Concat;
    if Reads(p, text, i, "", m) {
      var words := ReadIsSpelled(p, text, i, "", m);
      assert WrittenAs(p, text, i, words, m);
    } else if words :| WrittenAs(p, text, i, words, m) {
      SpelledIsRead(p, text, i, words, "", m.name);
    }
  }

  lemma ReadsBoundary(rest: Pattern, text: string, i: nat, name: string, m: Match)
    requires i <= |text|
    ensures Reads(Boundary(rest), text, i, name, m) <==> AtBoundary(text, i) && Reads(rest, text, i, name, m)
  {
  }

  /** The engine answers at a place just when a head is written out there, with the name and the end of that head. */
  lemma WrittenIff(text: string, i: nat, m: Match)
    requires i <= |text|
    ensures Try(CREATE_TABLE, text, i, "") == Some(m)
      <==> AtBoundary(text, i) && exists words :: WrittenAs(CREATE_TABLE.rest, text, i, words, m)
  {
    HeadIff(text, i, m);
    assert Unbounded(CREATE_TABLE.rest);
    hide Try, Reads, Unbounded, WrittenAs;
    ReadsBoundary(CREATE_TABLE.rest, text, i, "", m);
    ReadsIff(CREATE_TABLE.rest, text, i, m);
  }

  // ----- The words of a head -----

  predicate Gap(s: string) {
    s != "" && forall k :: 0 <= k < |s| ==> IsSpace(s[k])
  }

  predicate Blanks(s: string) {
    forall k :: 0 <= k < |s| ==> IsSpace(s[k])
  }

  /** A name made of word characters, quote marks, dots, dollar signs and braces. */
  predicate Name(s: string) {
    s != "" && forall k :: 0 <= k < |s| ==> IsWordChar(s[k]) || s[k] in ['`', '"', '.', '$', '{', '}']
  }

  /** The name of the table, perhaps some blanks, and the opening parenthesis. */
  predicate NameAndOpen(words: seq<string>, name: string) {
    |words| == 3 && Name(words[0]) && name == words[0] && Blanks(words[1]) && words[2] == "("
  }

  /** The words CREATE and TABLE in any case, perhaps IF NOT EXISTS, and the name, with blanks between them. */
  predicate IsHead(words: seq<string>, name: string) {
    && |words| >= 4 && Upper(words[0]) == "CREATE" && Gap(words[1]) && Upper(words[2]) == "TABLE" && Gap(words[3])
    && (|| NameAndOpen(words[4..], name)
        || (&& |words| >= 10
            && Upper(words[4]) == "IF" && Gap(words[5])
            && Upper(words[6]) == "NOT" && Gap(words[7])
            && Upper(words[8]) == "EXISTS" && Gap(words[9])
            && NameAndOpen(words[10..], name)))
  }

  lemma WordAndGap(word: string, rest: Pattern, words: seq<string>, name: string, got: string)
    ensures Spells(Keyword(word, Repeat(Blank, 1, rest)), words, name, got) <==>
      |words| >= 2 && Upper(words[0]) == word && Gap(words[1]) && Spells(rest, words[2..], name, got)
  {
    if |words| >= 2 {
      assert words[1..][1..] == words[2..] && words[1..][0] == words[1];
    }
  }

  lemma OpenIs(s: string)
    ensures Upper(s) == "(" <==> s == "("
  {
    if |s| == 1 {
      assert s == [s[0]] && Upper(s)[0] == '(' <==> s[0] == '(';
    }
  }

  lemma OpenedIs(words: seq<string>, name: string, got: string)
    ensures Spells(Repeat(Blank, 0, Keyword("(", Matched)), words, name, got) <==>
      |words| == 2 && Blanks(words[0]) && words[1] == "(" && got == name
  {
    var open := Keyword("(", Matched);
    if |words| >= 2 {
      OpenIs(words[1]);
      assert words[1..][0] == words[1] && words[1..][1..] == words[2..];
      assert Spells(open, words[1..], name, got)
        == (Upper(words[1]) == "(" && Spells(Matched, words[2..], name, got));
      assert (forall k :: 0 <= k < |words[0]| ==> Blank.Has(words[0][k])) == Blanks(words[0]);
    }
  }

  lemma SpellsName(words: seq<string>, name: string)
    requires words != []
    ensures Spells(NAMED, words, "", name) == (Name(words[0]) && Spells(NAMED.rest, words[1..], words[0], name))
  {
    assert (forall k :: 0 <= k < |words[0]| ==> NameChar.Has(words[0][k]))
      == (forall k :: 0 <= k < |words[0]| ==> IsWordChar(words[0][k]) || words[0][k] in ['`', '"', '.', '$', '{', '}']);
  }

  lemma NamedIs(words: seq<string>, name: string)
    ensures Spells(NAMED, words, "", name) <==> NameAndOpen(words, name)
  {
    if words != [] {
      hide Spells;
      OpenedIs(words[1..], words[0], name);
      assert Spells(NAMED, words, "", name)
        == (Name(words[0]) && Spells(NAMED.rest, words[1..], words[0], name)) by {
        SpellsName(words, name);
      }
      if |words| == 3 {
        assert words[1..][0] == words[1] && words[1..][1] == words[2];
      }
    }
  }

  lemma EitherIs(words: seq<string>, name: string)
    ensures Spells(Either(GUARDED, NAMED), words, "", name) <==>
      || NameAndOpen(words, name)
      || (&& |words| >= 6 && Upper(words[0]) == "IF" && Gap(words[1]) && Upper(words[2]) == "NOT" && Gap(words[3])
          && Upper(words[4]) == "EXISTS" && Gap(words[5]) && NameAndOpen(words[6..], name))
  {
    hide NameAndOpen, Gap;
    NamedIs(words, name);
    var not := GUARDED.rest.rest;
    var ending := not.rest.rest;
    WordAndGap("IF", not, words, "", name);
    if |words| >= 2 {
      WordAndGap("NOT", ending, words[2..], "", name);
      if |words| >= 4 {
        WordAndGap("EXISTS", NAMED, words[4..], "", name);
        assert words[2..][2..] == words[4..] && words[2..][0] == words[2] && words[2..][1] == words[3];
        if |words| >= 6 {
          assert words[4..][2..] == words[6..] && words[4..][0] == words[4] && words[4..][1] == words[5];
          NamedIs(words[6..], name);
        }
      }
    }
  }

  /** The pattern spells exactly the heads of CREATE TABLE statements. */
  lemma SpellingIs(words: seq<string>, name: string)
    ensures Spells(CREATE_TABLE.rest, words, "", name) <==> IsHead(words, name)
  {
    hide Spells, NameAndOpen, Gap;
    var table := CREATE_TABLE.rest.rest.rest;
    var either := table.rest.rest;
    WordAndGap("CREATE", table, words, "", name);
    if |words| >= 4 {
      WordAndGap("TABLE", either, words[2..], "", name);
      assert words[2..][2..] == words[4..] && words[2..][0] == words[2] && words[2..][1] == words[3];
      EitherIs(words[4..], name);
      assert |words| >= 10 ==> forall k :: 0 <= k < 6 ==> words[4..][k] == words[4 + k];
      assert |words| >= 10 ==> words[4..][6..] == words[10..];
    } else if |words| >= 2 {
      WordAndGap("TABLE", either, words[2..], "", name);
    }
  }
}
