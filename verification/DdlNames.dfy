/**
 Which column a part of a table body declares, and which name a table gets, in terms of the text as
 it is written.
*/
module DdlNames {
  import opened Common
  import opened DdlScanner

  // ----- Columns -----

  /** The words that start a table clause. */
  function ClauseWords(): seq<string> {
    ["constraint ", "primary key", "foreign key", "unique ", "check ", "index "]
  }

  predicate StartsWith(part: string, word: string) {
    |part| >= |word| && Lower(part[..|word|]) == word
  }

  predicate IsClause(part: string) {
    exists word <- ClauseWords() :: StartsWith(part, word)
  }

  predicate IsLower(word: string) {
    forall i :: 0 <= i < |word| ==> !('A' <= word[i] <= 'Z')
  }

  lemma CaseOnce(c: char)
    ensures Upper(Lower([c])) == Upper([c]) && Lower(Upper([c])) == Lower([c])
  {
  }

  /** Comparing in upper case is comparing in lower case. */
  lemma SameIgnoringCase(s: string, word: string)
    requires |s| == |word| && IsLower(word)
    ensures Upper(s) == Upper(word) <==> Lower(s) == word
  {
    if Upper(s) == Upper(word) {
      forall i | 0 <= i < |s| ensures Lower(s)[i] == word[i] {
        assert Upper(s)[i] == Upper(word)[i];
        CaseOnce(s[i]);
        CaseOnce(word[i]);
        assert Lower([s[i]])[0] == Lower(Upper([s[i]]))[0];
        assert Lower([word[i]])[0] == Lower(Upper([word[i]]))[0];
      }
    }
    if Lower(s) == word {
      forall i | 0 <= i < |s| ensures Upper(s)[i] == Upper(word)[i] {
        assert Lower(s)[i] == word[i];
        CaseOnce(s[i]);
        assert Upper([s[i]])[0] == Upper(Lower([s[i]]))[0];
      }
    }
  }

  lemma UpperPrefix(part: string, word: string)
    requires IsLower(word)
    ensures Upper(word) <= Upper(part) <==> StartsWith(part, word)
  {
    if |part| >= |word| {
      SameIgnoringCase(part[..|word|], word);
      assert Upper(part)[..|word|] == Upper(part[..|word|]);
    }
  }

  lemma UpperWords()
    ensures Upper("constraint ") == "CONSTRAINT " && Upper("primary key") == "PRIMARY KEY"
    ensures Upper("foreign key") == "FOREIGN KEY" && Upper("unique ") == "UNIQUE "
    ensures Upper("check ") == "CHECK " && Upper("index ") == "INDEX "
  {
  }

  lemma LowerWords()
    ensures forall word <- ClauseWords() :: IsLower(word)
  {
  }

  lemma ClauseIs(part: string)
    ensures IsTableClause(part) <==> IsClause(part)
  {
    hide StartsWith, Upper, IsLower;
    UpperWords();
    LowerWords();
    forall word <- ClauseWords() ensures Upper(word) <= Upper(part) <==> StartsWith(part, word) {
      UpperPrefix(part, word);
    }
    ClauseCases(part);
  }

  lemma ClauseCases(part: string)
    ensures IsClause(part) <==>
      || StartsWith(part, "constraint ") || StartsWith(part, "primary key") || StartsWith(part, "foreign key")
      || StartsWith(part, "unique ") || StartsWith(part, "check ") || StartsWith(part, "index ")
  {
    hide StartsWith;
    var w := ClauseWords();
    assert w[0] in w && w[1] in w && w[2] in w && w[3] in w && w[4] in w && w[5] in w;
  }

  /** The first word ends at k, and the name in it, between quote marks, goes from i to j. */
  predicate NameAt(part: string, i: nat, j: nat, k: nat) {
    && i < j <= k <= |part|
    && (forall n :: 0 <= n < k ==> !IsSpace(part[n])) && (k < |part| ==> IsSpace(part[k]))
    && (forall n :: 0 <= n < i ==> IsQuoteMark(part[n])) && (forall n :: j <= n < k ==> IsQuoteMark(part[n]))
    && IsIdentifier(part[i..j])
  }

  lemma {:induction false} FirstWordEnds(part: string) returns (k: nat)
    ensures k <= |part| && FirstWord(part) == part[..k]
    ensures (forall n :: 0 <= n < k ==> !IsSpace(part[n])) && (k < |part| ==> IsSpace(part[k]))
  {
    if part == "" || IsSpace(part[0]) {
      k := 0;
    } else {
      k := FirstWordEnds(part[1..]);
      assert part[..k + 1] == [part[0]] + part[1..][..k];
      k := k + 1;
      assert forall n :: 1 <= n < k ==> part[n] == part[1..][n - 1];
    }
  }

  /** Taking the quote marks off both ends. */
  lemma {:induction false} UnquotedIs(s: string) returns (i: nat, j: nat)
    ensures i <= j <= |s| && Unquoted(s) == s[i..j]
    ensures (forall n :: 0 <= n < i ==> IsQuoteMark(s[n])) && (forall n :: j <= n < |s| ==> IsQuoteMark(s[n]))
    ensures i < j ==> !IsQuoteMark(s[i]) && !IsQuoteMark(s[j - 1])
    decreases |s|
  {
    if s != "" && IsQuoteMark(s[0]) {
      i, j := UnquotedIs(s[1..]);
      assert s[1..][i..j] == s[i + 1..j + 1];
      i, j := i + 1, j + 1;
      assert forall n :: 1 <= n < |s| ==> s[n] == s[1..][n - 1];
      assert Unquoted(s) == s[i..j];
    } else if s != "" && IsQuoteMark(s[|s| - 1]) {
      i, j := UnquotedIs(s[..|s| - 1]);
      assert s[..|s| - 1][i..j] == s[i..j];
    } else {
      i, j := 0, |s|;
    }
  }

  /** A name has one place only. */
  lemma SameName(part: string, i: nat, j: nat, k: nat, i': nat, j': nat, k': nat)
    requires NameAt(part, i, j, k)
    requires i' <= j' <= k' <= |part|
    requires (forall n :: 0 <= n < k' ==> !IsSpace(part[n])) && (k' < |part| ==> IsSpace(part[k']))
    requires (forall n :: 0 <= n < i' ==> IsQuoteMark(part[n])) && (forall n :: j' <= n < k' ==> IsQuoteMark(part[n]))
    requires i' < j' ==> !IsQuoteMark(part[i']) && !IsQuoteMark(part[j' - 1])
    ensures i' == i && j' == j && k' == k
  {
    assert k' == k;
    IdentifierHasNoMarks(part[i..j]);
    assert part[i..j][0] == part[i] && part[i..j][j - i - 1] == part[j - 1];
  }

  lemma IdentifierHasNoMarks(s: string)
    requires IsIdentifier(s)
    ensures forall n :: 0 <= n < |s| ==> !IsQuoteMark(s[n])
  {
  }

  /**
   A part declares a column exactly when it is no table clause and its first word is an identifier,
   quote marks apart.
  */
  lemma ColumnIff(part: string, column: string)
    ensures ColumnOf(part) == Some(column) <==>
      !IsClause(part) && exists i: nat, j: nat, k: nat :: NameAt(part, i, j, k) && column == Lower(part[i..j])
  {
    hide IsTableClause, IsClause, IsIdentifier, IsSpace, IsQuoteMark, Lower;
    ClauseIs(part);
    var k := FirstWordEnds(part);
    var i, j := UnquotedIs(part[..k]);
    assert part[..k][i..j] == part[i..j];
    assert forall n :: 0 <= n < k ==> part[..k][n] == part[n];
    EmptyIsNoName();
    if IsIdentifier(part[i..j]) {
      assert NameAt(part, i, j, k);
    }
    forall a: nat, b: nat, c: nat | NameAt(part, a, b, c) ensures a == i && b == j {
      SameName(part, a, b, c, i, j, k);
    }
  }

  lemma EmptyIsNoName()
    ensures !IsIdentifier("")
  {
  }

  // ----- Table names -----

  /** A run of quote marks. */
  predicate Marks(s: string) {
    forall ch <- s :: IsQuoteMark(ch)
  }

  /** A word without dots, quote marks and blanks. */
  predicate PlainWord(s: string) {
    s != "" && forall i :: 0 <= i < |s| ==> s[i] != '.' && !IsQuoteMark(s[i]) && !IsSpace(s[i])
  }

  lemma {:induction false} LastOfDotted(front: string, name: string)
    requires forall i :: 0 <= i < |name| ==> name[i] != '.'
    ensures AfterLastDot(front + "." + name) == name && AfterLastDot(name) == name
  {
    var s := front + "." + name;
    if name == "" {
      assert s[|s| - 1] == '.';
    } else {
      var n := |name| - 1;
      LastOfDotted(front, name[..n]);
      assert s[..|s| - 1] == front + "." + name[..n];
      assert s[|s| - 1] == name[n];
      assert name == name[..n] + [name[n]];
    }
  }

  lemma PlainStrips(s: string)
    requires s != "" && !IsSpace(s[0]) && !IsSpace(s[|s| - 1])
    ensures Strip(s) == s
  {
  }

  lemma {:induction false} TrimLeftFront(front: string, rest: string)
    requires rest != "" && !IsSpace(rest[0])
    ensures TrimLeft(front + rest) == TrimLeft(front) + rest
  {
    if front == "" {
      assert front + rest == rest;
    } else {
      assert (front + rest)[0] == front[0];
      assert (front + rest)[1..] == front[1..] + rest;
      if IsSpace(front[0]) {
        TrimLeftFront(front[1..], rest);
      }
    }
  }

  lemma NotSpaces()
    ensures !IsSpace('.') && forall ch :: IsQuoteMark(ch) ==> !IsSpace(ch)
  {
  }

  lemma StripFront(front: string, rest: string)
    requires rest != "" && !IsSpace(rest[0]) && !IsSpace(rest[|rest| - 1])
    ensures Strip(front + rest) == TrimLeft(front) + rest
  {
    hide TrimLeft, IsSpace, TrimRight;
    TrimLeftFront(front, rest);
    var s := TrimLeft(front) + rest;
    assert s[|s| - 1] == rest[|rest| - 1];
    TrimRightStays(s);
  }

  lemma TrimRightStays(s: string)
    requires s != "" && !IsSpace(s[|s| - 1])
    ensures TrimRight(s) == s
  {
  }

  lemma PlainHasNoMarks(name: string)
    requires PlainWord(name)
    ensures forall ch <- name :: !IsQuoteMark(ch)
  {
  }

  lemma MarksGo(before: string, name: string, after: string)
    requires Marks(before) && Marks(after) && PlainWord(name)
    ensures Filter(before + name + after, ch => !IsQuoteMark(ch)) == name
  {
    hide Filter;
    var p := ch => !IsQuoteMark(ch);
    PlainHasNoMarks(name);
    FilterAppend(before + name, after, p);
    FilterAppend(before, name, p);
    FilterNone(before, p);
    FilterNone(after, p);
    FilterAll(name, p);
    assert [] + name + [] == name;
  }

  lemma QuotedEnds(before: string, name: string, after: string)
    requires Marks(before) && Marks(after) && PlainWord(name)
    ensures var s := before + name + after; s != "" && !IsSpace(s[0]) && !IsSpace(s[|s| - 1])
  {
    var s := before + name + after;
    NotSpaces();
    assert s[0] == if before != "" then before[0] else name[0];
    assert s[|s| - 1] == if after != "" then after[|after| - 1] else name[|name| - 1];
    assert before != "" ==> before[0] in before;
    assert after != "" ==> after[|after| - 1] in after;
  }

  /** A table named alone is known by that name in lower case, whatever quote marks stand around it. */
  lemma PlainNameIs(before: string, name: string, after: string)
    requires Marks(before) && Marks(after) && PlainWord(name)
    ensures Normalised(before + name + after) == Lower(name)
  {
    QuotedEnds(before, name, after);
    PlainStrips(before + name + after);
    MarksGo(before, name, after);
    LastOfDotted("", name);
    PlainStrips(name);
  }

  /** A table named with its schema is known by the last name only, whatever stands before the last dot. */
  lemma QualifiedNameIs(schema: string, before: string, name: string, after: string)
    requires Marks(before) && Marks(after) && PlainWord(name)
    ensures Normalised(schema + "." + (before + name + after)) == Lower(name)
  {
    hide Strip, TrimLeft;
    var p := ch => !IsQuoteMark(ch);
    var table := before + name + after;
    QuotedEnds(before, name, after);
    NotSpaces();
    var rest := "." + table;
    assert schema + "." + table == schema + rest;
    assert rest[0] == '.' && rest[|rest| - 1] == table[|table| - 1];
    StripFront(schema, rest);
    FilterAppend(TrimLeft(schema), rest, p);
    FilterAppend(".", table, p);
    MarksGo(before, name, after);
    DotStays();
    var front := Filter(TrimLeft(schema), p);
    assert front + ("." + name) == front + "." + name;
    LastOfDotted(front, name);
    PlainStrips(name);
  }

  lemma DotStays()
    ensures Filter(".", ch => !IsQuoteMark(ch)) == "."
  {
  }
}
