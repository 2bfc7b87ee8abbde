/**
 The DDL scanner: finds the body of each CREATE TABLE statement, splits it at top-level commas, and
 reads a column name off each part.

 Both scanners follow single-quoted text and parentheses. The splitter keeps its depth from going
 below zero; the body scan does not need to.
*/
module DdlScanner {
  import opened Common
  import CreateHead

  // ----- The scanning state -----

  datatype Mode = Mode(depth: nat, quoted: bool)

  const START := Mode(0, false)

  /** One character at a time: a quote toggles, and only unquoted parentheses count. */
  function Step(m: Mode, ch: char): Mode {
    if ch == '\'' then Mode(m.depth, !m.quoted)
    else if m.quoted then m
    else if ch == '(' then Mode(m.depth + 1, false)
    else if ch == ')' then Mode(Max0(m.depth - 1), false)
    else m
  }

  function Scan(m: Mode, text: string): Mode
    decreases |text|
  {
    if text == "" then m else Scan(Step(m, text[0]), text[1..])
  }

  /** A comma that separates parts. */
  predicate Separates(m: Mode, ch: char) {
    ch == ',' && m == START
  }

  // ----- Splitting -----

  /** The pieces between separating commas; `current` is the piece being read. */
  function Pieces(m: Mode, current: string, text: string): (r: seq<string>)
    ensures r != []
    decreases |text|
  {
    if text == "" then [current]
    else if Separates(m, text[0]) then [current] + Pieces(m, "", text[1..])
    else Pieces(Step(m, text[0]), current + [text[0]], text[1..])
  }

  /** The stripped pieces that are not blank. */
  function Tokens(pieces: seq<string>): seq<string> {
    if pieces == [] then [] else
    (if Strip(pieces[0]) != "" then [Strip(pieces[0])] else []) + Tokens(pieces[1..])
  }

  function Split(text: string): seq<string> {
    Tokens(Pieces(START, "", text))
  }

  lemma {:induction false} TokensAppend(a: seq<string>, b: seq<string>)
    ensures Tokens(a + b) == Tokens(a) + Tokens(b)
  {
    if a == [] {
      assert a + b == b;
    } else {
      assert (a + b)[1..] == a[1..] + b;
      TokensAppend(a[1..], b);
    }
  }

  /** One unseparated character read. */
  lemma ReadOne(m: Mode, current: string, text: string, i: nat)
    requires i < |text| && !Separates(m, text[i])
    ensures Pieces(m, current, text[i..]) == Pieces(Step(m, text[i]), current + [text[i]], text[i + 1..])
  {
    assert text[i..][0] == text[i] && text[i..][1..] == text[i + 1..];
  }

  /** A doubled quote inside quotes, read in one go, leaves the state where two toggles would. */
  lemma ReadEscape(m: Mode, current: string, text: string, i: nat)
    requires i + 1 < |text| && text[i] == '\'' && text[i + 1] == '\'' && m.quoted
    ensures Pieces(m, current, text[i..]) == Pieces(m, current + [text[i]] + [text[i + 1]], text[i + 2..])
  {
    ReadOne(m, current, text, i);
    ReadOne(Step(m, '\''), current + [text[i]], text, i + 1);
  }

  lemma ReadComma(m: Mode, current: string, text: string, i: nat)
    requires i < |text| && Separates(m, text[i])
    ensures Tokens(Pieces(m, current, text[i..]))
      == (if Strip(current) != "" then [Strip(current)] else []) + Tokens(Pieces(m, "", text[i + 1..]))
  {
    assert text[i..][1..] == text[i + 1..];
    TokensAppend([current], Pieces(m, "", text[i + 1..]));
  }

  /** `_split_top_level_commas`. */
  method SplitTopLevelCommas(text: string) returns (parts: seq<string>)
    ensures parts == Split(text)
  {
    hide Strip, Tokens, Pieces;
    parts := [];
    var current := "";
    var depth: int, inSingle, idx := 0, false, 0;
    assert text[0..] == text;
    while idx < |text|
      invariant 0 <= idx <= |text| && depth >= 0
      invariant Split(text) == parts + Tokens(Pieces(Mode(depth, inSingle), current, text[idx..]))
    {
      var ch := text[idx];
      ghost var m := Mode(depth, inSingle);
      if ch == '\'' {
        if inSingle && idx + 1 < |text| && text[idx + 1] == '\'' {
          ReadEscape(m, current, text, idx);
          current := current + [ch];
          current := current + [text[idx + 1]];
          idx := idx + 1;
        } else {
          ReadOne(m, current, text, idx);
          current := current + [ch];
          inSingle := !inSingle;
        }
      } else if !inSingle && ch == '(' {
        ReadOne(m, current, text, idx);
        depth := depth + 1;
        current := current + [ch];
      } else if !inSingle && ch == ')' {
        ReadOne(m, current, text, idx);
        depth := if depth - 1 > 0 then depth - 1 else 0;
        current := current + [ch];
      } else if !inSingle && depth == 0 && ch == ',' {
        ReadComma(m, current, text, idx);
        var token := Strip(current);
        if token != "" {
          parts := parts + [token];
        }
        current := "";
      } else {
        ReadOne(m, current, text, idx);
        current := current + [ch];
      }
      idx := idx + 1;
    }
    LastPiece(Mode(depth, inSingle), current, text[idx..]);
    var tail := Strip(current);
    if tail != "" {
      parts := parts + [tail];
    }
  }

  lemma LastPiece(m: Mode, current: string, rest: string)
    requires rest == ""
    ensures Tokens(Pieces(m, current, rest)) == if Strip(current) != "" then [Strip(current)] else []
  {
  }

  // ----- Finding a body -----

  /** Parentheses opened and not closed, counted without a floor, and whether a quote is open. */
  function Level(text: string): (r: (int, bool)) {
    if text == "" then (0, false) else
    var n := |text| - 1;
    var before := Level(text[..n]);
    if text[n] == '\'' then (before.0, !before.1)
    else if before.1 then before
    else if text[n] == '(' then (before.0 + 1, false)
    else if text[n] == ')' then (before.0 - 1, false)
    else before
  }

  /** Somewhere inside the parenthesis opened at `from`, up to and including place k. */
  predicate Inside(text: string, from: nat, k: nat)
    requires from <= k < |text|
  {
    Level(text[from..k + 1]).0 > 0
  }

  /** The parenthesis opened at `from` is closed at `close`, and not before. */
  predicate ClosesAt(text: string, from: nat, close: nat) {
    && from < close < |text|
    && Level(text[from..close + 1]).0 == 0
    && forall k :: from <= k < close ==> Inside(text, from, k)
  }

  lemma LevelNext(text: string, from: nat, i: nat)
    requires from <= i < |text|
    ensures text[from..i + 1][..i - from] == text[from..i] && text[from..i + 1][i - from] == text[i]
  {
  }

  /** The body scan of `_parse_production_push_inventory`; -1 when the parenthesis is never closed. */
  method FindClose(text: string, open: nat) returns (close: int)
    requires open < |text| && text[open] == '('
    ensures close == -1 || (close > 0 && ClosesAt(text, open, close))
    ensures close == -1 ==> forall k :: open <= k < |text| ==> Inside(text, open, k)
  {
    var depth, inSingle := 0, false;
    var i := open;
    while i < |text|
      invariant open <= i <= |text|
      invariant Level(text[open..i]) == (depth, inSingle)
      invariant forall k :: open <= k < i ==> Inside(text, open, k)
      invariant i > open ==> depth > 0
      invariant i == open ==> depth == 0 && !inSingle
    {
      LevelNext(text, open, i);
      if text[i] == '\'' {
        if inSingle && i + 1 < |text| && text[i + 1] == '\'' {
          assert Inside(text, open, i);
          i := i + 1;
          LevelNext(text, open, i);
        } else {
          inSingle := !inSingle;
        }
      } else if !inSingle && text[i] == '(' {
        depth := depth + 1;
      } else if !inSingle && text[i] == ')' {
        depth := depth - 1;
        if depth == 0 {
          return i;
        }
      }
      assert Inside(text, open, i);
      i := i + 1;
    }
    close := -1;
  }

  // ----- Columns and tables -----

  predicate IsTableClause(part: string) {
    var u := Upper(part);
    || "CONSTRAINT " <= u || "PRIMARY KEY" <= u || "FOREIGN KEY" <= u
    || "UNIQUE " <= u || "CHECK " <= u || "INDEX " <= u
  }

  function FirstWord(s: string): string {
    if s == "" || IsSpace(s[0]) then "" else [s[0]] + FirstWord(s[1..])
  }

  predicate IsQuoteMark(ch: char) { ch == '`' || ch == '"' }

  function Unquoted(s: string): (r: string)
    decreases |s|
  {
    if s != "" && IsQuoteMark(s[0]) then Unquoted(s[1..])
    else if s != "" && IsQuoteMark(s[|s| - 1]) then Unquoted(s[..|s| - 1])
    else s
  }

  predicate IsIdentifier(s: string) {
    && s != ""
    && (s[0] == '_' || 'a' <= s[0] <= 'z' || 'A' <= s[0] <= 'Z')
    && forall i :: 0 <= i < |s| ==> s[i] == '_' || 'a' <= s[i] <= 'z' || 'A' <= s[i] <= 'Z' || '0' <= s[i] <= '9'
  }

  /** The column a part declares, if it declares one. */
  function ColumnOf(part: string): Option<string> {
    var name := Unquoted(FirstWord(part));
    if IsTableClause(part) || !IsIdentifier(name) then None else Some(Lower(name))
  }

  function ColumnsOf(parts: seq<string>): set<string> {
    if parts == [] then {} else
    var n := |parts| - 1;
    ColumnsOf(parts[..n]) + if ColumnOf(parts[n]).Some? then {ColumnOf(parts[n]).value} else {}
  }

  /** `_parse_create_table_columns`. */
  method ParseColumns(body: string) returns (columns: set<string>)
    ensures columns == ColumnsOf(Split(body))
  {
    hide IsTableClause, IsIdentifier, Unquoted, FirstWord, Split, Lower;
    var parts := SplitTopLevelCommas(body);
    columns := {};
    for i := 0 to |parts|
      invariant columns == ColumnsOf(parts[..i])
    {
      assert parts[..i + 1][..i] == parts[..i];
      if !IsTableClause(parts[i]) {
        var name := Unquoted(FirstWord(parts[i]));
        if IsIdentifier(name) {
          columns := columns + {Lower(name)};
        }
      }
    }
    assert parts[..|parts|] == parts;
  }

  function AfterLastDot(s: string): (r: string)
    ensures '.' !in r
  {
    if s == "" || s[|s| - 1] == '.' then "" else AfterLastDot(s[..|s| - 1]) + [s[|s| - 1]]
  }

  /** `_normalize_object_name`. */
  function Normalised(raw: string): string {
    Lower(Strip(AfterLastDot(Filter(Strip(raw), ch => !IsQuoteMark(ch)))))
  }

  /** A CREATE TABLE head: the normalised name, and the place after its opening parenthesis. */
  datatype Head = Head(name: string, end: nat)

  function FindHead(text: string, index: nat): (h: Option<Head>)
    requires index <= |text|
    ensures h.Some? ==> index < h.value.end <= |text| && text[h.value.end - 1] == '('
  {
    var m := CreateHead.Search(text, index);
    if m.Some? then
      CreateHead.SearchEndsOpen(text, index);
      Some(Head(Normalised(m.value.name), m.value.end))
    else None
  }

  /** A table found: where its body starts and ends. */
  datatype Found = Found(name: string, from: nat, to: nat)

  predicate IsBody(text: string, f: Found) {
    0 < f.from <= f.to && ClosesAt(text, f.from - 1, f.to)
  }

  function Body(text: string, f: Found): string {
    if f.from <= f.to <= |text| then text[f.from..f.to] else ""
  }

  /** The first place from k on where the parenthesis opened at `open` is closed. */
  function FirstClose(text: string, open: nat, k: nat): (c: Option<nat>)
    requires open < k
    ensures c.Some? ==> k <= c.value < |text|
    decreases |text| - k
  {
    if k >= |text| then None else
    if Level(text[open..k + 1]).0 == 0 then Some(k) else FirstClose(text, open, k + 1)
  }

  lemma {:induction false} ClosedFirst(text: string, open: nat, k: nat, close: nat)
    requires open < k <= close && ClosesAt(text, open, close)
    ensures FirstClose(text, open, k) == Some(close)
    decreases close - k
  {
    if k < close {
      assert Inside(text, open, k);
      ClosedFirst(text, open, k + 1, close);
    }
  }

  lemma {:induction false} NeverClosed(text: string, open: nat, k: nat)
    requires open < k && forall j :: open <= j < |text| ==> Inside(text, open, j)
    ensures FirstClose(text, open, k) == None
    decreases |text| - k
  {
    if k < |text| {
      assert Inside(text, open, k);
      NeverClosed(text, open, k + 1);
    }
  }

  /** The tables of a text from a place on: an unclosed head is skipped, a closed one ends the search there. */
  ghost function Statements(text: string, index: nat): seq<Found>
    requires index <= |text|
    decreases |text| - index
  {
    match FindHead(text, index)
    case None => []
    case Some(h) =>
      match FirstClose(text, h.end - 1, h.end)
      case None => Statements(text, h.end)
      case Some(c) => [Found(h.name, h.end, c)] + Statements(text, c + 1)
  }

  function Merge(tables: map<string, set<string>>, name: string, columns: set<string>): map<string, set<string>> {
    tables[name := (if name in tables then tables[name] else {}) + columns]
  }

  /** The tables known before, with the columns of a list of bodies added under their names. */
  function Tables(before: map<string, set<string>>, text: string, found: seq<Found>): map<string, set<string>> {
    if found == [] then before else
    var n := |found| - 1;
    Merge(Tables(before, text, found[..n]), found[n].name, ColumnsOf(Split(Body(text, found[n]))))
  }

  /** The tables of a list of files. */
  ghost function AllTables(texts: seq<string>): map<string, set<string>> {
    if texts == [] then map[] else
    var n := |texts| - 1;
    Tables(AllTables(texts[..n]), texts[n], Statements(texts[n], 0))
  }

  lemma NoTables(before: map<string, set<string>>, text: string)
    ensures Tables(before, text, []) == before
  {
  }

  lemma NoStatement(text: string, index: nat)
    requires index <= |text| && FindHead(text, index).None?
    ensures Statements(text, index) == []
  {
  }

  /** One more head that is never closed. */
  lemma SkipStatement(text: string, index: nat)
    requires index <= |text| && FindHead(text, index).Some?
    requires var open := FindHead(text, index).value.end - 1; forall k :: open <= k < |text| ==> Inside(text, open, k)
    ensures Statements(text, index) == Statements(text, FindHead(text, index).value.end)
  {
    var h := FindHead(text, index).value;
    NeverClosed(text, h.end - 1, h.end);
  }

  /** One more table. */
  lemma TakeStatement(before: map<string, set<string>>, text: string, index: nat, close: nat, found: seq<Found>)
    requires index <= |text| && FindHead(text, index).Some?
    requires ClosesAt(text, FindHead(text, index).value.end - 1, close)
    ensures var h := FindHead(text, index).value;
      var f := Found(h.name, h.end, close);
      && found + Statements(text, index) == (found + [f]) + Statements(text, close + 1)
      && Tables(before, text, found + [f])
        == Merge(Tables(before, text, found), f.name, ColumnsOf(Split(text[f.from..f.to])))
  {
    hide Split, ColumnsOf, Merge, FindHead;
    var h := FindHead(text, index).value;
    ClosedFirst(text, h.end - 1, h.end, close);
    assert (found + [Found(h.name, h.end, close)])[..|found|] == found;
  }

  /** The inventory loop over one file. */
  method FileInventory(before: map<string, set<string>>, text: string)
    returns (tables: map<string, set<string>>, count: nat)
    ensures tables == Tables(before, text, Statements(text, 0))
    ensures count == |Statements(text, 0)|
  {
    hide Split, ColumnsOf, Inside, Merge, FindHead, Statements, Tables;
    NoTables(before, text);
    tables, count := before, 0;
    var index := 0;
    ghost var found: seq<Found> := [];
    while true
      invariant 0 <= index <= |text|
      invariant found + Statements(text, index) == Statements(text, 0)
      invariant tables == Tables(before, text, found) && count == |found|
      decreases |text| - index
    {
      var head := FindHead(text, index);
      if head.None? {
        NoStatement(text, index);
        break;
      }
      var openIdx := head.value.end - 1;
      var close := FindClose(text, openIdx);
      if close < 0 {
        SkipStatement(text, index);
        index := head.value.end;
        continue;
      }
      TakeStatement(before, text, index, close, found);
      var columns := ParseColumns(text[openIdx + 1..close]);
      tables := Merge(tables, head.value.name, columns);
      found := found + [Found(head.value.name, openIdx + 1, close)];
      count := count + 1;
      index := close + 1;
    }
    assert found + [] == found;
  }

  /** The table part of `_parse_production_push_inventory`: all files, and the number of tables in each. */
  method Inventory(texts: seq<string>) returns (tables: map<string, set<string>>, counts: seq<nat>)
    ensures tables == AllTables(texts)
    ensures |counts| == |texts| && forall i :: 0 <= i < |texts| ==> counts[i] == |Statements(texts[i], 0)|
  {
    hide Tables, Statements;
    tables, counts := map[], [];
    for i := 0 to |texts|
      invariant tables == AllTables(texts[..i])
      invariant |counts| == i && forall k :: 0 <= k < i ==> counts[k] == |Statements(texts[k], 0)|
    {
      assert texts[..i + 1][..i] == texts[..i];
      var count;
      tables, count := FileInventory(tables, texts[i]);
      counts := counts + [count];
    }
    assert texts[..|texts|] == texts;
  }
}
