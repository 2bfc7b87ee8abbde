/**
 What the DDL scanner guarantees: splitting loses only separators, blanks and blank parts, and is
 stable; an extracted body is the shortest balanced one, and splitting it never meets the clamp.
*/
module DdlTheorems {
  import opened Common
  import opened DdlScanner

  function Join(parts: seq<string>): string {
    if parts == [] then "" else
    if |parts| == 1 then parts[0] else parts[0] + "," + Join(parts[1..])
  }

  /** Joined by commas, the pieces are the whole text. */
  lemma {:induction false} PiecesJoin(m: Mode, current: string, text: string)
    ensures Join(Pieces(m, current, text)) == current + text
    decreases |text|
  {
    if text == "" {
    } else if Separates(m, text[0]) {
      PiecesJoin(m, "", text[1..]);
      assert text == "," + text[1..];
      var rest := Pieces(m, "", text[1..]);
      assert ([current] + rest)[1..] == rest;
      assert current + "," + text[1..] == current + ("," + text[1..]);
    } else {
      PiecesJoin(Step(m, text[0]), current + [text[0]], text[1..]);
      assert current + [text[0]] + text[1..] == current + text;
    }
  }

  // ----- Scanning over concatenations -----

  lemma {:induction false} ScanAppend(m: Mode, a: string, b: string)
    ensures Scan(m, a + b) == Scan(Scan(m, a), b)
    decreases |a|
  {
    if a == "" {
      assert a + b == b;
    } else {
      assert (a + b)[0] == a[0] && (a + b)[1..] == a[1..] + b;
      ScanAppend(Step(m, a[0]), a[1..], b);
    }
  }

  lemma ScanOne(m: Mode, a: string, ch: char)
    ensures Scan(m, a + [ch]) == Step(Scan(m, a), ch)
  {
    ScanAppend(m, a, [ch]);
    assert Scan(Scan(m, a), [ch]) == Scan(Step(Scan(m, a), ch), "");
  }

  /** No character of the text separates parts. */
  predicate Unsplit(m: Mode, text: string)
    decreases |text|
  {
    text == "" || (!Separates(m, text[0]) && Unsplit(Step(m, text[0]), text[1..]))
  }

  lemma {:induction false} UnsplitAppend(m: Mode, a: string, b: string)
    ensures Unsplit(m, a + b) <==> Unsplit(m, a) && Unsplit(Scan(m, a), b)
    decreases |a|
  {
    if a == "" {
      assert a + b == b;
    } else {
      assert (a + b)[0] == a[0] && (a + b)[1..] == a[1..] + b;
      UnsplitAppend(Step(m, a[0]), a[1..], b);
    }
  }

  lemma UnsplitOne(m: Mode, ch: char)
    ensures Unsplit(m, [ch]) <==> !Separates(m, ch)
  {
    assert Unsplit(Step(m, ch), "");
  }

  lemma {:induction false} PiecesThrough(m: Mode, current: string, part: string, rest: string)
    requires Unsplit(m, part)
    ensures Pieces(m, current, part + rest) == Pieces(Scan(m, part), current + part, rest)
    decreases |part|
  {
    if part == "" {
      assert part + rest == rest && current + part == current;
    } else {
      assert (part + rest)[0] == part[0] && (part + rest)[1..] == part[1..] + rest;
      PiecesThrough(Step(m, part[0]), current + [part[0]], part[1..], rest);
      assert current + [part[0]] + part[1..] == current + part;
    }
  }

  /** Each piece holds no separating comma, and all but the last end where they began. */
  predicate Clean(pieces: seq<string>, last: Mode) {
    && pieces != []
    && (forall i :: 0 <= i < |pieces| ==> Unsplit(START, pieces[i]))
    && (forall i :: 0 <= i < |pieces| - 1 ==> Scan(START, pieces[i]) == START)
    && Scan(START, pieces[|pieces| - 1]) == last
  }

  lemma {:induction false} PiecesAreClean(m: Mode, current: string, text: string)
    requires Unsplit(START, current) && Scan(START, current) == m
    ensures Clean(Pieces(m, current, text), Scan(m, text))
    decreases |text|
  {
    if text == "" {
    } else if Separates(m, text[0]) {
      PiecesAreClean(START, "", text[1..]);
      var rest := Pieces(m, "", text[1..]);
      var all := [current] + rest;
      assert forall i :: 1 <= i < |all| ==> all[i] == rest[i - 1];
    } else {
      UnsplitAppend(START, current, [text[0]]);
      UnsplitOne(m, text[0]);
      ScanOne(START, current, text[0]);
      PiecesAreClean(Step(m, text[0]), current + [text[0]], text[1..]);
    }
  }

  // ----- Trimming -----

  lemma {:induction false} TrimLeftScans(m: Mode, s: string)
    ensures Scan(m, TrimLeft(s)) == Scan(m, s) && (Unsplit(m, s) ==> Unsplit(m, TrimLeft(s)))
    ensures TrimLeft(s) != "" ==> !IsSpace(TrimLeft(s)[0])
    decreases |s|
  {
    if s != "" && IsSpace(s[0]) {
      TrimLeftScans(m, s[1..]);
    }
  }

  lemma {:induction false} TrimRightScans(m: Mode, s: string)
    ensures Scan(m, TrimRight(s)) == Scan(m, s) && (Unsplit(m, s) ==> Unsplit(m, TrimRight(s)))
    ensures TrimRight(s) <= s && (TrimRight(s) != "" ==> !IsSpace(TrimRight(s)[|TrimRight(s)| - 1]))
    decreases |s|
  {
    if s != "" && IsSpace(s[|s| - 1]) {
      var n := |s| - 1;
      assert s == s[..n] + [s[n]];
      ScanOne(m, s[..n], s[n]);
      UnsplitAppend(m, s[..n], [s[n]]);
      TrimRightScans(m, s[..n]);
    }
  }

  /** Stripping changes neither where the scan ends nor whether the text is unsplit. */
  lemma StripScans(s: string)
    ensures Scan(START, Strip(s)) == Scan(START, s) && (Unsplit(START, s) ==> Unsplit(START, Strip(s)))
  {
    TrimLeftScans(START, s);
    TrimRightScans(START, TrimLeft(s));
  }

  // ----- Splitting again -----

  predicate IsPart(part: string) {
    Unsplit(START, part) && Strip(part) == part && part != ""
  }

  /** Parts that can be told apart again once joined. */
  predicate Separable(parts: seq<string>) {
    && (forall i :: 0 <= i < |parts| ==> IsPart(parts[i]))
    && (forall i :: 0 <= i < |parts| - 1 ==> Scan(START, parts[i]) == START)
  }

  lemma {:induction false} TokensAreSeparable(pieces: seq<string>, last: Mode)
    requires Clean(pieces, last)
    ensures Separable(Tokens(pieces))
    ensures last == START ==> forall i :: 0 <= i < |Tokens(pieces)| ==> Scan(START, Tokens(pieces)[i]) == START
  {
    StripScans(pieces[0]);
    StripTwice(pieces[0]);
    if |pieces| > 1 {
      assert forall i :: 0 <= i < |pieces[1..]| ==> pieces[1..][i] == pieces[i + 1];
      TokensAreSeparable(pieces[1..], last);
      var rest := Tokens(pieces[1..]);
      var t := Strip(pieces[0]);
      assert Tokens(pieces) == (if t != "" then [t] else []) + rest;
    } else {
      assert Tokens(pieces[1..]) == [];
    }
  }

  lemma SplitIsSeparable(text: string)
    ensures Separable(Split(text))
    ensures Scan(START, text) == START ==> forall i :: 0 <= i < |Split(text)| ==> Scan(START, Split(text)[i]) == START
  {
    PiecesAreClean(START, "", text);
    TokensAreSeparable(Pieces(START, "", text), Scan(START, text));
  }

  /** Splitting a returned part yields just that part. */
  lemma PartIsWhole(text: string, i: nat)
    requires i < |Split(text)|
    ensures Split(Split(text)[i]) == [Split(text)[i]]
  {
    SplitIsSeparable(text);
    OnePart(Split(text)[i]);
  }

  lemma OnePart(part: string)
    requires IsPart(part)
    ensures Pieces(START, "", part) == [part] && Split(part) == [part]
  {
    PiecesThrough(START, "", part, "");
    assert part + "" == part && "" + part == part;
    assert Tokens([part]) == [Strip(part)] + Tokens([part][1..]);
  }

  lemma {:induction false} JoinedPieces(parts: seq<string>)
    requires Separable(parts) && parts != []
    ensures Pieces(START, "", Join(parts)) == parts
  {
    if |parts| == 1 {
      OnePart(parts[0]);
    } else {
      assert forall i :: 0 <= i < |parts[1..]| ==> parts[1..][i] == parts[i + 1];
      JoinedPieces(parts[1..]);
      var rest := "," + Join(parts[1..]);
      assert parts[0] + "," + Join(parts[1..]) == parts[0] + rest;
      PiecesThrough(START, "", parts[0], rest);
      assert rest[1..] == Join(parts[1..]) && "" + parts[0] == parts[0];
      assert Pieces(START, parts[0], rest) == [parts[0]] + Pieces(START, "", rest[1..]);
    }
  }

  lemma {:induction false} PartsAreTokens(parts: seq<string>)
    requires forall i :: 0 <= i < |parts| ==> IsPart(parts[i])
    ensures Tokens(parts) == parts
  {
    hide Unsplit, Strip;
    if parts != [] {
      var rest := parts[1..];
      assert parts == [parts[0]] + rest;
      forall i | 0 <= i < |rest| ensures IsPart(rest[i]) {
        assert rest[i] == parts[i + 1];
      }
      PartsAreTokens(rest);
      assert Strip(parts[0]) == parts[0];
    }
  }

  /** Splitting the parts joined by commas yields the same parts. */
  lemma SplitOfJoin(text: string)
    ensures Split(Join(Split(text))) == Split(text)
  {
    var parts := Split(text);
    SplitIsSeparable(text);
    if parts == [] {
      assert Tokens([""]) == Tokens([""][1..]);
    } else {
      JoinedPieces(parts);
      PartsAreTokens(parts);
    }
  }

  /** The parts are the pieces of the text, stripped and without the blank ones; no other text is lost. */
  lemma NothingElseIsLost(text: string)
    ensures var pieces := Pieces(START, "", text); Join(pieces) == text && Split(text) == Tokens(pieces)
  {
    PiecesJoin(START, "", text);
  }

  // ----- Bodies -----

  lemma LevelOf(s: string, ch: char)
    ensures Level(s + [ch]) ==
      var b := Level(s);
      if ch == '\'' then (b.0, !b.1)
      else if b.1 then b
      else if ch == '(' then (b.0 + 1, false)
      else if ch == ')' then (b.0 - 1, false)
      else b
  {
    assert (s + [ch])[..|s|] == s;
  }

  lemma {:induction false} LevelAfterOpen(s: string)
    ensures Level("(" + s) == (Level(s).0 + 1, Level(s).1)
  {
    if s == "" {
      assert "(" + s == [] + ['('];
      LevelOf([], '(');
    } else {
      var n := |s| - 1;
      assert s == s[..n] + [s[n]] && "(" + s == ("(" + s[..n]) + [s[n]];
      LevelAfterOpen(s[..n]);
      LevelOf(s[..n], s[n]);
      LevelOf("(" + s[..n], s[n]);
    }
  }

  /** No prefix closes more than it opened. */
  predicate NeverBelow(s: string) {
    forall k :: 0 <= k <= |s| ==> Level(s[..k]).0 >= 0
  }

  /** While the unclamped level stays above zero the splitter's state is that level. */
  lemma {:induction false} ScanIsLevel(s: string)
    requires NeverBelow(s)
    ensures Level(s).0 >= 0 && Scan(START, s) == Mode(Level(s).0, Level(s).1)
  {
    assert s[..|s|] == s;
    if s != "" {
      var n := |s| - 1;
      assert forall k :: 0 <= k <= n ==> s[..n][..k] == s[..k];
      ScanIsLevel(s[..n]);
      assert s == s[..n] + [s[n]];
      ScanOne(START, s[..n], s[n]);
      LevelOf(s[..n], s[n]);
    }
  }

  lemma BodyNeverBelow(text: string, open: nat, close: nat)
    requires ClosesAt(text, open, close) && text[open] == '('
    ensures NeverBelow(text[open + 1..close])
  {
    var body := text[open + 1..close];
    forall k | 0 <= k <= |body| ensures Level(body[..k]).0 >= 0 {
      assert text[open..open + k + 1] == "(" + body[..k];
      LevelAfterOpen(body[..k]);
      assert Inside(text, open, open + k);
    }
  }

  /** The close is unique: no shorter and no longer body starts there. */
  lemma CloseIsUnique(text: string, open: nat, close: nat, other: nat)
    requires ClosesAt(text, open, close) && ClosesAt(text, open, other)
    ensures other == close
  {
    ClosedFirst(text, open, open + 1, close);
    ClosedFirst(text, open, open + 1, other);
  }

  /** An extracted body ends at an unquoted parenthesis, and is balanced. */
  lemma BodyIsBalanced(text: string, open: nat, close: nat)
    requires ClosesAt(text, open, close) && text[open] == '('
    ensures text[close] == ')'
    ensures Level(text[open + 1..close]) == (0, false)
  {
    assert Inside(text, open, close - 1);
    var body := text[open + 1..close];
    assert text[open..close] == "(" + body;
    assert text[open..close + 1] == ("(" + body) + [text[close]];
    LevelOf("(" + body, text[close]);
    LevelAfterOpen(body);
  }

  /** Splitting an extracted body: the floor under the depth is never used. */
  lemma ClampNeverFires(text: string, open: nat, close: nat, k: nat)
    requires ClosesAt(text, open, close) && text[open] == '('
    requires var body := text[open + 1..close]; k < |body| && body[k] == ')' && !Scan(START, body[..k]).quoted
    ensures Scan(START, text[open + 1..close][..k]).depth > 0
  {
    var body := text[open + 1..close];
    BodyNeverBelow(text, open, close);
    assert forall j :: 0 <= j <= k ==> body[..k][..j] == body[..j];
    ScanIsLevel(body[..k]);
    assert body[..k + 1] == body[..k] + [')'];
    LevelOf(body[..k], ')');
    assert Level(body[..k + 1]).0 >= 0;
  }

  /** Every part of an extracted body ends outside parentheses and quotes. */
  lemma BodyPartsAreBalanced(text: string, open: nat, close: nat)
    requires ClosesAt(text, open, close) && text[open] == '('
    ensures var parts := Split(text[open + 1..close]);
      forall i :: 0 <= i < |parts| ==> Scan(START, parts[i]) == START
  {
    BodyNeverBelow(text, open, close);
    BodyIsBalanced(text, open, close);
    ScanIsLevel(text[open + 1..close]);
    SplitIsSeparable(text[open + 1..close]);
  }

  // ----- The inventory -----

  lemma LevelDrops(text: string, open: nat, k: nat)
    requires open <= k < |text|
    ensures Level(text[open..k + 1]).0 >= Level(text[open..k]).0 - 1
  {
    assert text[open..k + 1] == text[open..k] + [text[k]];
    LevelOf(text[open..k], text[k]);
  }

  lemma {:induction false} FirstCloseCloses(text: string, open: nat, k: nat)
    requires open < k && forall j :: open <= j < k && j < |text| ==> Inside(text, open, j)
    ensures var c := FirstClose(text, open, k); c.Some? ==> ClosesAt(text, open, c.value)
    decreases |text| - k
  {
    if k < |text| && Level(text[open..k + 1]).0 != 0 {
      assert Inside(text, open, k - 1);
      LevelDrops(text, open, k);
      FirstCloseCloses(text, open, k + 1);
    }
  }

  lemma OpenIsInside(text: string, open: nat)
    requires open < |text| && text[open] == '('
    ensures Inside(text, open, open)
  {
    assert text[open..open + 1] == [] + ['('];
    LevelOf([], '(');
  }

  lemma {:induction false} HeadIsBody(text: string, index: nat)
    requires index <= |text| && FindHead(text, index).Some?
    ensures var h := FindHead(text, index).value;
      var c := FirstClose(text, h.end - 1, h.end);
      c.Some? ==> IsBody(text, Found(h.name, h.end, c.value)) && text[h.end - 1] == '('
  {
    var h := FindHead(text, index).value;
    OpenIsInside(text, h.end - 1);
    FirstCloseCloses(text, h.end - 1, h.end);
  }

  /** True bodies after `index`, one after the other. */
  predicate Consecutive(text: string, index: nat, s: seq<Found>) {
    && (forall i :: 0 <= i < |s| ==> index < s[i].from && IsBody(text, s[i]))
    && (forall i, j :: 0 <= i < j < |s| ==> s[i].to < s[j].from)
  }

  lemma FirstOfMany(text: string, index: nat, f: Found, rest: seq<Found>)
    requires index < f.from && IsBody(text, f) && Consecutive(text, f.to + 1, rest)
    ensures Consecutive(text, index, [f] + rest)
  {
    hide IsBody;
    var all := [f] + rest;
    assert forall i :: 1 <= i < |all| ==> all[i] == rest[i - 1];
    assert f.from <= f.to by { BodyOrdered(text, f); }
  }

  lemma BodyOrdered(text: string, f: Found)
    requires IsBody(text, f)
    ensures f.from <= f.to < |text|
  {
  }

  lemma BodiesFromEarlier(text: string, index: nat, later: nat, s: seq<Found>)
    requires index <= later && Consecutive(text, later, s)
    ensures Consecutive(text, index, s)
  {
    hide IsBody;
  }

  /** Every table of the inventory has a true body, and the bodies follow one another without overlap. */
  lemma {:induction false} StatementsAreBodies(text: string, index: nat)
    requires index <= |text|
    ensures Consecutive(text, index, Statements(text, index))
    decreases |text| - index
  {
    hide FindHead, FirstClose, IsBody;
    if FindHead(text, index).Some? {
      var h := FindHead(text, index).value;
      HeadIsBody(text, index);
      var c := FirstClose(text, h.end - 1, h.end);
      if c.None? {
        StatementsAreBodies(text, h.end);
        BodiesFromEarlier(text, index, h.end, Statements(text, h.end));
      } else {
        StatementsAreBodies(text, c.value + 1);
        FirstOfMany(text, index, Found(h.name, h.end, c.value), Statements(text, c.value + 1));
      }
    }
  }

  // ----- What the inventory holds -----

  ghost predicate Names(found: seq<Found>, name: string) {
    exists f <- found :: f.name == name
  }

  /** Some body under this name declares this column. */
  ghost predicate Declares(text: string, found: seq<Found>, name: string, column: string) {
    exists f <- found :: f.name == name && column in ColumnsOf(Split(Body(text, f)))
  }

  ghost predicate Has(tables: map<string, set<string>>, name: string, column: string) {
    name in tables && column in tables[name]
  }

  /** Adding a list of bodies adds the names of the bodies, and under each name what its bodies declare. */
  lemma {:induction false} TablesHold(
      before: map<string, set<string>>, text: string, found: seq<Found>, name: string, column: string)
    ensures name in Tables(before, text, found) <==> name in before || Names(found, name)
    ensures Has(Tables(before, text, found), name, column)
      <==> Has(before, name, column) || Declares(text, found, name, column)
  {
    hide ColumnsOf, Split, Body;
    if found != [] {
      var n := |found| - 1;
      TablesHold(before, text, found[..n], name, column);
      assert found == found[..n] + [found[n]];
    }
  }

  /** The inventory of a list of files is what the statements of the files declare, whatever their order. */
  lemma {:induction false} InventoryHolds(texts: seq<string>, name: string, column: string)
    ensures name in AllTables(texts) <==> exists t <- texts :: Names(Statements(t, 0), name)
    ensures Has(AllTables(texts), name, column)
      <==> exists t <- texts :: Declares(t, Statements(t, 0), name, column)
  {
    hide Tables, Statements, Declares, Names;
    if texts != [] {
      var n := |texts| - 1;
      InventoryHolds(texts[..n], name, column);
      TablesHold(AllTables(texts[..n]), texts[n], Statements(texts[n], 0), name, column);
      assert forall t :: t in texts <==> t in texts[..n] || t == texts[n];
      assert texts[n] in texts;
    }
  }

  // ----- Names -----

  /** What is left of a name starts the text or follows a dot. */
  lemma {:induction false} AfterLastDotIs(s: string) returns (k: nat)
    ensures k <= |s| && AfterLastDot(s) == s[k..] && (k > 0 ==> s[k - 1] == '.')
  {
    k := |s|;
    if s != "" && s[|s| - 1] != '.' {
      k := AfterLastDotIs(s[..|s| - 1]);
      assert s[k..] == s[..|s| - 1][k..] + [s[|s| - 1]];
    }
  }

  lemma {:induction false} LowerTrimLeft(s: string)
    ensures TrimLeft(Lower(s)) == Lower(TrimLeft(s))
  {
    if s != "" {
      assert Lower(s)[1..] == Lower(s[1..]);
      LowerTrimLeft(s[1..]);
    }
  }

  lemma {:induction false} LowerTrimRight(s: string)
    ensures TrimRight(Lower(s)) == Lower(TrimRight(s))
  {
    if s != "" {
      assert Lower(s)[..|s| - 1] == Lower(s[..|s| - 1]);
      LowerTrimRight(s[..|s| - 1]);
    }
  }

  lemma {:induction false} TrimRightKeeps(s: string)
    ensures forall ch <- TrimRight(s) :: ch in s
  {
    TrimRightScans(START, s);
  }

  lemma {:induction false} TrimLeftKeeps(s: string)
    ensures forall ch <- TrimLeft(s) :: ch in s
  {
    if s != "" {
      TrimLeftKeeps(s[1..]);
    }
  }

  predicate PlainChar(ch: char) {
    ch != '.' && !IsQuoteMark(ch) && !('A' <= ch <= 'Z')
  }

  lemma LowerIsPlain(s: string)
    requires forall ch <- s :: ch != '.' && !IsQuoteMark(ch)
    ensures forall ch <- Lower(s) :: PlainChar(ch)
  {
    forall i | 0 <= i < |s| ensures PlainChar(Lower(s)[i]) {
      assert s[i] in s;
    }
  }

  /** A normalised name holds no dot, quote mark, capital or outer blank. */
  lemma NormalisedIsPlain(raw: string)
    ensures forall ch <- Normalised(raw) :: PlainChar(ch)
    ensures Strip(Normalised(raw)) == Normalised(raw)
  {
    hide Strip, Lower, AfterLastDot;
    var t := Filter(Strip(raw), ch => !IsQuoteMark(ch));
    FilterIn(Strip(raw), ch => !IsQuoteMark(ch));
    var k := AfterLastDotIs(t);
    var u := AfterLastDot(t);
    assert forall ch <- u :: ch in t;
    StripKeeps(u);
    LowerIsPlain(Strip(u));
    LowerStrip(Strip(u));
    StripTwice(u);
  }

  lemma StripKeeps(s: string)
    ensures forall ch <- Strip(s) :: ch in s
  {
    TrimLeftKeeps(s);
    TrimRightKeeps(TrimLeft(s));
  }

  lemma LowerStrip(s: string)
    ensures Strip(Lower(s)) == Lower(Strip(s))
  {
    LowerTrimLeft(s);
    LowerTrimRight(TrimLeft(s));
  }

  /** Normalising a normalised name leaves it. */
  lemma NormalisedTwice(raw: string)
    ensures Normalised(Normalised(raw)) == Normalised(raw)
  {
    hide Strip, AfterLastDot;
    var t := Normalised(raw);
    NormalisedIsPlain(raw);
    FilterAll(t, ch => !IsQuoteMark(ch));
    var k := AfterLastDotIs(t);
    assert forall j :: 0 <= j < |t| ==> PlainChar(t[j]);
    assert Lower(t) == t;
  }
}
