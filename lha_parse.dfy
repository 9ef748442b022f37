/** Reading an LHA set: member file names, member types, the blocks of a
    member file, one member, and the fold over all members of a set. */
module LhaParse {
  import opened Strings
  import opened Arrays
  import opened Platform
  import opened LhaPath

  // ---------------------------------------------------------------------
  // Member file names

  predicate IsDigit(c: char) { '0' <= c <= '9' }

  predicate FourDigits(s: string)
  {
    |s| == 4 && forall k :: 0 <= k < 4 ==> IsDigit(s[k])
  }

  /** `re.fullmatch(member_filename(setname), name)` with the pattern
      `<setname>_(\d{4}).dat`: the set name, '_', four digits (the captured
      id), any one character but a newline (the unescaped '.'), then "dat". */
  function MatchMemberName(setname: string, name: string): Option<string>
  {
    var n := |setname|;
    if |name| == n + 9 && name[..n] == setname && name[n] == '_' && FourDigits(name[n + 1..n + 5])
       && name[n + 5] != '\n' && name[n + 6..] == "dat"
    then Some(name[n + 1..n + 5])
    else None
  }

  /** The conventional name of member `id` of set `setname`. */
  function MemberFileName(setname: string, id: string): string
  {
    setname + "_" + id + ".dat"
  }

  /** The conventional name of a member matches, capturing its id. */
  lemma MemberNameRoundTrip(setname: string, id: string)
    requires FourDigits(id)
    ensures MatchMemberName(setname, MemberFileName(setname, id)) == Some(id)
  {
    var name := MemberFileName(setname, id);
    var n := |setname|;
    assert name[..n] == setname;
    assert name[n + 1..n + 5] == id;
    assert name[n + 6..] == "dat";
  }

  /** A match captures four digits, and the name is the set name, '_', the
      id, one character that is not a newline, and "dat". */
  lemma MemberNameShape(setname: string, name: string)
    requires MatchMemberName(setname, name).Some?
    ensures var id := MatchMemberName(setname, name).value;
            && FourDigits(id)
            && name[|setname| + 5] != '\n'
            && name == setname + "_" + id + [name[|setname| + 5]] + "dat"
  {
    var n := |setname|;
    assert name == name[..n] + [name[n]] + name[n + 1..n + 5] + [name[n + 5]] + name[n + 6..];
  }

  /** The unescaped '.' of the pattern: any character other than a newline
      may stand before "dat". */
  lemma AnyCharacterBeforeDat(setname: string, id: string, c: char)
    requires FourDigits(id) && c != '\n'
    ensures MatchMemberName(setname, setname + "_" + id + [c] + "dat") == Some(id)
  {
    var name := setname + "_" + id + [c] + "dat";
    var n := |setname|;
    assert name[..n] == setname;
    assert name[n + 1..n + 5] == id;
    assert name[n + 6..] == "dat";
  }

  /** A name the member glob `<setname>_*.dat` selects. */
  predicate Globbed(setname: string, name: string)
  {
    |name| >= |setname| + 5 && name[..|setname| + 1] == setname + "_" && name[|name| - 4..] == ".dat"
  }

  /** Among globbed names the pattern accepts exactly the conventional names
      with a four-digit id, so the loose '.' lets nothing else through. */
  lemma GlobbedNameMatches(setname: string, name: string)
    requires Globbed(setname, name)
    ensures MatchMemberName(setname, name).Some? <==>
            |name| == |setname| + 9 && FourDigits(name[|setname| + 1..|setname| + 5])
    ensures MatchMemberName(setname, name).Some? ==>
            name == MemberFileName(setname, MatchMemberName(setname, name).value)
  {
    var n := |setname|;
    assert name[..n + 1][..n] == name[..n] && name[..n + 1][n] == name[n];
    if |name| == n + 9 {
      assert name[n + 5..] == name[|name| - 4..];
      assert name[n + 5] == '.' && name[n + 6..] == "dat";
      if MatchMemberName(setname, name).Some? {
        MemberNameShape(setname, name);
      }
    }
  }

  // ---------------------------------------------------------------------
  // Member types

  /** `header.get(key)`: a missing key reads as `None`. */
  function Get(header: Header, key: string): Value
  {
    if key in header then header[key] else Null
  }

  /** `str(value)` as an f-string shows it. */
  function Shown(v: Value): string
  {
    match v
    case Null => "None"
    case Text(t) => t
    case Other(s) => s
  }

  const CENTRAL := "central"

  const HAS_TO_BE_CENTRAL := " has to be 'central', found '"

  function NotCentralMessage(pdftype: Value): string
  {
    "Member " + "0000" + HAS_TO_BE_CENTRAL + Shown(pdftype) + "'"
  }

  /** `member_type(id, pdftype, errortype)`: an explicit type wins (member
      0000 must then be central); member 0000 is central; otherwise the
      error type, lowercased, decides. */
  function MemberType(id: string, pdftype: Value, errortype: Option<string>): (r: Result<Value>)
    ensures r.Err? <==> id == "0000" && pdftype != Null && pdftype != Text(CENTRAL)
    ensures r.Err? ==> r.error.ValueError? && Contains(r.error.message, "0000")
    ensures r.Ok? ==> r.value != Null
    ensures r.Ok? && pdftype != Null ==> r.value == pdftype
    ensures r.Ok? && id == "0000" ==> r.value == Text(CENTRAL)
  {
    if pdftype != Null then
      if id == "0000" && pdftype != Text(CENTRAL) then
        NotCentralMessageMarked(pdftype);
        Err(ValueError(NotCentralMessage(pdftype)))
      else Ok(pdftype)
    else if id == "0000" then Ok(Text(CENTRAL))
    else
      var et := if errortype.Some? then Lower(errortype.value) else "";
      if et == "hessian" || et == "symhessian" then Ok(Text("error"))
      else if et == "replicas" then Ok(Text("replica"))
      else Ok(Text("member"))
  }

  lemma ContainsWhole(t: string)
    ensures Contains(t, t)
  {
    assert OccursAt(t, t, 0);
  }

  lemma NotCentralMessageMarked(pdftype: Value)
    ensures Contains(NotCentralMessage(pdftype), "0000")
  {
    ContainsWhole("0000");
    ContainsInConcat("Member ", "0000", HAS_TO_BE_CENTRAL + Shown(pdftype) + "'", "0000");
    assert NotCentralMessage(pdftype) == "Member " + "0000" + (HAS_TO_BE_CENTRAL + Shown(pdftype) + "'");
  }

  /** Without an explicit type, a member other than 0000 takes its type from
      the error type, compared without regard to ASCII case. */
  lemma MemberTypeFromErrorType(id: string, errortype: Option<string>)
    requires id != "0000"
    ensures var et := if errortype.Some? then Lower(errortype.value) else "";
            MemberType(id, Null, errortype) ==
              if et in {"hessian", "symhessian"} then Ok(Text("error"))
              else if et == "replicas" then Ok(Text("replica"))
              else Ok(Text("member"))
  {
  }

  /** Error types that differ only in ASCII case give the same member type. */
  lemma MemberTypeIgnoresCase(id: string, pdftype: Value, e1: string, e2: string)
    requires Lower(e1) == Lower(e2)
    ensures MemberType(id, pdftype, Some(e1)) == MemberType(id, pdftype, Some(e2))
  {
  }

  /** Without the set's error type, which `parse` does not pass on, every
      untyped member other than 0000 is a plain "member", even one that a
      Hessian error type would make an "error" member. */
  lemma ErrorTypeNotForwarded(id: string)
    requires id != "0000"
    ensures MemberType(id, Null, None) == Ok(Text("member"))
    ensures MemberType(id, Null, Some("Hessian")) == Ok(Text("error"))
  {
    assert Lower("Hessian") == "hessian";
  }

  // ---------------------------------------------------------------------
  // Blocks

  /** The separator of the one-value-per-line grid reads, and the separators
      of the whitespace-delimited value table. */
  const SPACE: set<char> := {' '}
  const WHITESPACE: set<char> := {' ', '\t'}

  const NO_COLUMNS := "No columns to parse from file"

  /** A table cell: a token, or the NaN that pads a short row. */
  datatype Cell = Token(text: string) | Missing

  /** The grids, the flavor ids and the values, indexed (x, Q, flavor). */
  datatype Block = Block(xgrid: seq<string>, qgrid: seq<string>, flavors: seq<string>, values: seq<seq<seq<Cell>>>)

  /** A header row and the data rows, each padded to the header's width. */
  datatype Table = Table(columns: seq<string>, rows: seq<seq<Cell>>)

  const TAB: set<char> := {'\t'}

  /** The tokens that hold something besides tabs, in order: a line of tabs
      alone is a blank line to pandas, and blank lines are skipped. */
  function NonBlank(tokens: seq<string>): (r: seq<string>)
    ensures forall i :: 0 <= i < |r| ==> r[i] in tokens && Remove(r[i], TAB) != ""
  {
    if tokens == [] then []
    else (if Remove(tokens[0], TAB) == "" then [] else [tokens[0]]) + NonBlank(tokens[1..])
  }

  /** Dropping the blank tokens loses nothing but tabs. */
  lemma {:induction false} NonBlankKeepsText(tokens: seq<string>)
    ensures Remove(Concat(NonBlank(tokens)), TAB) == Remove(Concat(tokens), TAB)
  {
    if tokens != [] {
      var rest := NonBlank(tokens[1..]);
      NonBlankKeepsText(tokens[1..]);
      RemoveAppend(tokens[0], Concat(tokens[1..]), TAB);
      if Remove(tokens[0], TAB) != "" {
        assert NonBlank(tokens) == [tokens[0]] + rest;
        assert ([tokens[0]] + rest)[1..] == rest;
        RemoveAppend(tokens[0], Concat(rest), TAB);
      } else {
        assert NonBlank(tokens) == rest;
      }
    }
  }

  /** Tokens that each hold a character besides tabs leave some text once
      the tabs are removed. */
  lemma NonBlankLeavesText(tokens: seq<string>)
    requires tokens != [] && forall i :: 0 <= i < |tokens| ==> Remove(tokens[i], TAB) != ""
    ensures Remove(Concat(tokens), TAB) != ""
  {
    RemoveAppend(tokens[0], Concat(tokens[1..]), TAB);
  }

  /** Non-empty tokens without tabs are all kept. */
  lemma {:induction false} NonBlankWithoutTabs(tokens: seq<string>)
    requires forall i :: 0 <= i < |tokens| ==> tokens[i] != [] && forall k :: 0 <= k < |tokens[i]| ==> tokens[i][k] != '\t'
    ensures NonBlank(tokens) == tokens
  {
    if tokens != [] {
      RemoveNone(tokens[0], TAB);
      NonBlankWithoutTabs(tokens[1..]);
      assert tokens == [tokens[0]] + tokens[1..];
    }
  }

  /** Leaving out the empty parts first changes nothing: they are blank. */
  lemma {:induction false} NonBlankOfNonEmpty(parts: seq<string>)
    ensures NonBlank(NonEmpty(parts)) == NonBlank(parts)
  {
    if parts != [] {
      NonBlankOfNonEmpty(parts[1..]);
      if parts[0] == [] {
        assert NonEmpty(parts) == NonEmpty(parts[1..]);
      } else {
        assert NonEmpty(parts) == [parts[0]] + NonEmpty(parts[1..]);
        assert ([parts[0]] + NonEmpty(parts[1..]))[1..] == NonEmpty(parts[1..]);
      }
    }
  }

  /** `pd.read_csv(io.StringIO(line.replace(" ", "\n")), sep=" ", names=["value"])`:
      one value per piece of the line cut at its spaces, except that pandas
      skips the blank pieces (empty, or tabs alone). Because the column is
      named, a line with no value gives an empty grid, not an error. */
  function GridTokens(line: string): (r: seq<string>)
    ensures r == NonBlank(Split(line, " "))
    ensures forall i :: 0 <= i < |r| ==> Remove(r[i], TAB) != ""
    ensures Remove(Concat(r), TAB) == Remove(line, WHITESPACE)
    ensures r == [] <==> Remove(line, WHITESPACE) == ""
  {
    var fields := Fields(line, SPACE);
    FieldsKeepText(line, SPACE);
    NonBlankKeepsText(fields);
    RemoveTwice(line, SPACE, TAB);
    assert SPACE + TAB == WHITESPACE;
    FieldsAreSplitPieces(line, ' ');
    NonBlankOfNonEmpty(Split(line, " "));
    var tokens := NonBlank(fields);
    if tokens != [] then
      NonBlankLeavesText(tokens);
      tokens
    else tokens
  }

  /** Without tabs, the grid tokens are the whitespace-separated fields. */
  lemma GridTokensWithoutTabs(line: string)
    requires forall k :: 0 <= k < |line| ==> line[k] != '\t'
    ensures GridTokens(line) == Fields(line, WHITESPACE)
  {
    FieldsSameSeparators(line, SPACE, WHITESPACE);
    NonBlankWithoutTabs(Fields(line, SPACE));
    FieldsAreSplitPieces(line, ' ');
    NonBlankOfNonEmpty(Split(line, " "));
    assert GridTokens(line) == NonBlank(Fields(line, SPACE));
  }

  /** The whitespace-separated fields of each line, in order. */
  function LineFields(lines: seq<string>): (r: seq<seq<string>>)
    ensures |r| == |lines| && forall k :: 0 <= k < |lines| ==> r[k] == Fields(lines[k], WHITESPACE)
  {
    if lines == [] then [] else [Fields(lines[0], WHITESPACE)] + LineFields(lines[1..])
  }

  /** The lines of a table text that hold a field, numbered from `number`,
      with their fields (`fields[k]` are those of line k). */
  function TableRows(fields: seq<seq<string>>, number: nat): (rows: seq<(nat, seq<string>)>)
    ensures |rows| <= |fields|
    ensures forall i :: 0 <= i < |rows| ==> rows[i].1 != [] && number <= rows[i].0 < number + |fields|
  {
    if fields == [] then []
    else (if fields[0] == [] then [] else [(number, fields[0])]) + TableRows(fields[1..], number + 1)
  }

  /** Row `i` is line `rows[i].0 - number` with its fields. */
  lemma {:induction false} TableRowsAreLines(fields: seq<seq<string>>, number: nat, i: nat)
    requires i < |TableRows(fields, number)|
    ensures var row := TableRows(fields, number)[i];
            number <= row.0 < number + |fields| && row.1 == fields[row.0 - number] && row.1 != []
  {
    var rest := TableRows(fields[1..], number + 1);
    if fields[0] == [] {
      TableRowsAreLines(fields[1..], number + 1, i);
    } else if i > 0 {
      assert TableRows(fields, number)[i] == rest[i - 1];
      TableRowsAreLines(fields[1..], number + 1, i - 1);
    }
  }

  /** The rows come in line order. */
  lemma {:induction false} TableRowsIncrease(fields: seq<seq<string>>, number: nat, i: nat, j: nat)
    requires i < j < |TableRows(fields, number)|
    ensures TableRows(fields, number)[i].0 < TableRows(fields, number)[j].0
  {
    var rest := TableRows(fields[1..], number + 1);
    if fields[0] == [] {
      assert TableRows(fields, number) == rest;
      TableRowsIncrease(fields[1..], number + 1, i, j);
    } else {
      assert TableRows(fields, number) == [(number, fields[0])] + rest;
      if i > 0 {
        TableRowsIncrease(fields[1..], number + 1, i - 1, j - 1);
      }
    }
  }

  /** No line holding a field is passed over. */
  lemma {:induction false} TableRowsComplete(fields: seq<seq<string>>, number: nat, k: nat) returns (i: nat)
    requires k < |fields| && fields[k] != []
    ensures i < |TableRows(fields, number)| && TableRows(fields, number)[i].0 == number + k
  {
    if k == 0 {
      i := 0;
    } else {
      var rest := TableRows(fields[1..], number + 1);
      var i' := TableRowsComplete(fields[1..], number + 1, k - 1);
      i := if fields[0] == [] then i' else i' + 1;
      assert TableRows(fields, number)[i] == rest[i'];
    }
  }

  /** The rows are the lines holding a field, in line order, numbered from
      `number`, each with its fields: the row numbers are exactly the numbers
      of the lines holding a field. */
  lemma TableRowsInOrder(fields: seq<seq<string>>, number: nat)
    ensures var rows := TableRows(fields, number);
            && (forall i :: 0 <= i < |rows| ==> number <= rows[i].0 < number + |fields| && rows[i].1 == fields[rows[i].0 - number])
            && (forall i, j :: 0 <= i < j < |rows| ==> rows[i].0 < rows[j].0)
            && (set i | 0 <= i < |rows| :: rows[i].0) == (set k | 0 <= k < |fields| && fields[k] != [] :: number + k)
  {
    var rows := TableRows(fields, number);
    forall i | 0 <= i < |rows|
      ensures number <= rows[i].0 < number + |fields| && rows[i].1 == fields[rows[i].0 - number]
    {
      TableRowsAreLines(fields, number, i);
    }
    forall i, j | 0 <= i < j < |rows| ensures rows[i].0 < rows[j].0 {
      TableRowsIncrease(fields, number, i, j);
    }
    TableRowNumbers(fields, number);
  }

  lemma TableRowNumbers(fields: seq<seq<string>>, number: nat)
    ensures var rows := TableRows(fields, number);
            (set i | 0 <= i < |rows| :: rows[i].0) == (set k | 0 <= k < |fields| && fields[k] != [] :: number + k)
  {
    var rows := TableRows(fields, number);
    var numbers := set i | 0 <= i < |rows| :: rows[i].0;
    var lines := set k | 0 <= k < |fields| && fields[k] != [] :: number + k;
    forall x | x in numbers ensures x in lines {
      var i :| 0 <= i < |rows| && rows[i].0 == x;
      TableRowsAreLines(fields, number, i);
      assert fields[x - number] != [];
    }
    forall x | x in lines ensures x in numbers {
      var k :| 0 <= k < |fields| && fields[k] != [] && x == number + k;
      var i := TableRowsComplete(fields, number, k);
    }
  }

  const TOKENIZING_ERROR := "Error tokenizing data. C error: Expected "
  const FIELDS_IN_LINE := " fields in line "

  function WideRowMessage(expected: nat, line: nat, saw: nat): string
  {
    TOKENIZING_ERROR + NatToString(expected) + FIELDS_IN_LINE
    + NatToString(line) + ", saw " + NatToString(saw) + "\n"
  }

  /** The first row with more than `width` fields. */
  function FirstWide(rows: seq<(nat, seq<string>)>, width: nat): (r: Option<(nat, seq<string>)>)
    ensures r.None? <==> forall i :: 0 <= i < |rows| ==> |rows[i].1| <= width
    ensures r.Some? ==> exists i :: 0 <= i < |rows| && rows[i] == r.value && |r.value.1| > width
                                    && forall j :: 0 <= j < i ==> |rows[j].1| <= width
  {
    if rows == [] then None
    else if |rows[0].1| > width then Some(rows[0])
    else
      var r := FirstWide(rows[1..], width);
      assert forall i :: 1 <= i < |rows| ==> rows[i] == rows[1..][i - 1];
      r
  }

  /** A row of fields padded with `Missing` to `width` cells. */
  function Pad(fields: seq<string>, width: nat): (r: seq<Cell>)
    requires |fields| <= width
    ensures |r| == width
    ensures forall c :: 0 <= c < width ==> r[c] == if c < |fields| then Token(fields[c]) else Missing
  {
    if width == 0 then []
    else if fields == [] then [Missing] + Pad([], width - 1)
    else [Token(fields[0])] + Pad(fields[1..], width - 1)
  }

  /** Every data row padded to `width` cells. */
  function PadRows(data: seq<(nat, seq<string>)>, width: nat): (rows: seq<seq<Cell>>)
    requires forall i :: 0 <= i < |data| ==> |data[i].1| <= width
    ensures |rows| == |data|
    ensures forall i :: 0 <= i < |data| ==> rows[i] == Pad(data[i].1, width)
  {
    if data == [] then [] else [Pad(data[0].1, width)] + PadRows(data[1..], width)
  }

  /** `pd.read_csv(io.StringIO(text), delim_whitespace=True)`: the text is
      cut into lines and each line into its whitespace-separated fields; the
      table is then `TableFrom` those fields (the first line holding a field
      is the header, a longer later row is an error, shorter ones are padded). */
  function ReadTable(text: string): (r: Result<Table>)
    ensures r.Ok? ==> r.value.columns != []
                      && Shaped(r.value.rows, |r.value.rows|, |r.value.columns|)
  {
    TableFrom(LineFields(Split(text, "\n")))
  }

  /** The table given the fields of each line of its text. */
  function TableFrom(fields: seq<seq<string>>): (r: Result<Table>)
    ensures r.Ok? ==> r.value.columns != []
                      && Shaped(r.value.rows, |r.value.rows|, |r.value.columns|)
  {
    var rows := TableRows(fields, 1);
    if rows == [] then Err(ValueError(NO_COLUMNS))
    else
      var header := rows[0].1;
      var data := rows[1..];
      match FirstWide(data, |header|)
      case Some(wide) => Err(ValueError(WideRowMessage(|header|, wide.0, |wide.1|)))
      case None => Ok(Table(header, PadRows(data, |header|)))
  }

  /** No line holding a field: the "No columns" error. */
  lemma TableFromEmpty(fields: seq<seq<string>>)
    requires forall k :: 0 <= k < |fields| ==> fields[k] == []
    ensures TableFrom(fields) == Err(ValueError(NO_COLUMNS))
  {
    if TableRows(fields, 1) != [] {
      TableRowsAreLines(fields, 1, 0);
    }
  }

  /** The header is the first line holding a field. */
  lemma TableFromHeader(fields: seq<seq<string>>)
    requires TableRows(fields, 1) != []
    ensures var rows := TableRows(fields, 1);
            && 1 <= rows[0].0 <= |fields| && rows[0].1 == fields[rows[0].0 - 1]
            && (forall k :: 0 <= k < rows[0].0 - 1 ==> fields[k] == [])
  {
    TableRowsAreLines(fields, 1, 0);
    NothingBeforeFirstRow(fields);
  }

  /** No line before the first row holds a field. */
  lemma NothingBeforeFirstRow(fields: seq<seq<string>>)
    requires TableRows(fields, 1) != []
    ensures forall k :: 0 <= k < TableRows(fields, 1)[0].0 - 1 ==> fields[k] == []
  {
    var rows := TableRows(fields, 1);
    forall k | 0 <= k < rows[0].0 - 1 ensures fields[k] == [] {
      if fields[k] != [] {
        var i := TableRowsComplete(fields, 1, k);
        if i != 0 {
          TableRowsIncrease(fields, 1, 0, i);
        }
      }
    }
  }

  /** The read succeeds exactly when no row is wider than the header, and
      then the rows are the later lines padded to the header's width. */
  lemma TableFromRows(fields: seq<seq<string>>)
    ensures var rows := TableRows(fields, 1);
            && (rows != [] ==> (TableFrom(fields).Ok? <==> forall i :: 1 <= i < |rows| ==> |rows[i].1| <= |rows[0].1|))
            && (TableFrom(fields).Ok? ==>
                  && rows != [] && TableFrom(fields).value.columns == rows[0].1
                  && |TableFrom(fields).value.rows| == |rows| - 1
                  && forall i :: 0 <= i < |rows| - 1 ==>
                       TableFrom(fields).value.rows[i] == Pad(rows[i + 1].1, |rows[0].1|))
  {
    var rows := TableRows(fields, 1);
    if rows != [] {
      var data := rows[1..];
      var w := |rows[0].1|;
      assert forall i :: 1 <= i < |rows| ==> rows[i] == data[i - 1];
      if FirstWide(data, w).None? {
        var padded := PadRows(data, w);
        assert TableFrom(fields) == Ok(Table(rows[0].1, padded));
        forall i | 0 <= i < |rows| - 1 ensures padded[i] == Pad(rows[i + 1].1, w) {
          assert data[i] == rows[i + 1];
        }
      }
    }
  }

  const NOT_ENOUGH_VALUES := "not enough values to unpack (expected 4, got "
  const CANNOT_RESHAPE := "cannot reshape array of size "
  const INTO_SHAPE := " into shape ("

  function UnpackMessage(got: nat): string
  {
    NOT_ENOUGH_VALUES + NatToString(got) + ")"
  }

  function ReshapeMessage(size: nat, a: nat, b: nat, c: nat): string
  {
    CANNOT_RESHAPE + NatToString(size) + INTO_SHAPE
    + NatToString(a) + "," + NatToString(b) + "," + NatToString(c) + ")"
  }

  /** The four parts of a block: x line, Q line, flavor line, value text. */
  function BlockLines(content: string): seq<string>
  {
    Split(Strip(content), "\n", 3)
  }

  /** The stripped block starts with a character that is not whitespace, so
      its x line always holds a value. */
  lemma XLineHoldsValue(content: string)
    requires |BlockLines(content)| == 4
    ensures GridTokens(BlockLines(content)[0]) != []
  {
    StripProperties(content);
    FirstLineHoldsValue(Strip(content));
  }

  lemma FirstLineHoldsValue(s: string)
    requires s != [] && s[0] !in WHITESPACE && s[0] != '\n'
    ensures GridTokens(Split(s, "\n", 3)[0]) != []
  {
    var x := Split(s, "\n", 3)[0];
    assert s[..1] != "\n";
    assert x == [s[0]] + Split(s[1..], "\n", 3)[0];
    assert Remove(x, WHITESPACE) == [s[0]] + Remove(x[1..], WHITESPACE);
  }

  /** `member_block(content)`: read the three grids and the value table, then
      reshape the table, read out row by row, to (x, Q, flavor). */
  function MemberBlock(content: string): (r: Result<Block>)
    ensures r.Ok? ==> var b := r.value;
                      && b.xgrid != []
                      && |b.values| == |b.xgrid|
                      && forall i :: 0 <= i < |b.xgrid| ==> Shaped(b.values[i], |b.qgrid|, |b.flavors|)
  {
    var lines := BlockLines(content);
    if |lines| != 4 then Err(ValueError(UnpackMessage(|lines|)))
    else
      XLineHoldsValue(content);
      var xgrid := GridTokens(lines[0]);
      var qgrid := GridTokens(lines[1]);
      var flavors := GridTokens(lines[2]);
      match ReadTable(lines[2] + "\n" + lines[3])
      case Err(e) => Err(e)
      case Ok(table) => Reshaped(xgrid, qgrid, flavors, table)
  }

  /** `values.reshape(xgrid.size, qgrid.size, flavors.size)` on the table read
      out row by row; a count that does not fit the shape is an error. */
  function Reshaped(xgrid: seq<string>, qgrid: seq<string>, flavors: seq<string>, table: Table): (r: Result<Block>)
    ensures r.Ok? ==> r.value.xgrid == xgrid && r.value.qgrid == qgrid && r.value.flavors == flavors
                      && |r.value.values| == |xgrid|
                      && forall i :: 0 <= i < |xgrid| ==> Shaped(r.value.values[i], |qgrid|, |flavors|)
    ensures r.Err? <==> |Flatten(table.rows)| != |xgrid| * |qgrid| * |flavors|
  {
    var flat := Flatten(table.rows);
    Mul3IsProduct(|xgrid|, |qgrid|, |flavors|, 0, 0, 0);
    if |flat| != |xgrid| * |qgrid| * |flavors| then
      Err(ValueError(ReshapeMessage(|flat|, |xgrid|, |qgrid|, |flavors|)))
    else Ok(Block(xgrid, qgrid, flavors, Reshape3(flat, |xgrid|, |qgrid|, |flavors|)))
  }

  /** A block needs four lines once stripped: with fewer than three newlines
      the four-way unpacking fails, naming the number of lines. */
  lemma MemberBlockNeedsFourLines(content: string)
    ensures CountChar(Strip(content), '\n') < 3 <==> |BlockLines(content)| < 4
    ensures CountChar(Strip(content), '\n') < 3 ==>
            MemberBlock(content) == Err(ValueError(UnpackMessage(CountChar(Strip(content), '\n') + 1)))
  {
    var s := Strip(content);
    SplitLimitCount(s, "\n", 3);
    SplitCharCount(s, '\n');
  }

  /** The values are the table cells read out row by row: value (i, j, k) is
      cell number (i*nq + j)*nfl + k, so the flavor varies fastest. */
  lemma ReshapedLayout(xgrid: seq<string>, qgrid: seq<string>, flavors: seq<string>, table: Table,
                       i: nat, j: nat, k: nat)
    requires Reshaped(xgrid, qgrid, flavors, table).Ok?
    requires i < |xgrid| && j < |qgrid| && k < |flavors|
    ensures var flat := Flatten(table.rows);
            && (i * |qgrid| + j) * |flavors| + k < |flat|
            && Reshaped(xgrid, qgrid, flavors, table).value.values[i][j][k] == flat[(i * |qgrid| + j) * |flavors| + k]
  {
    Mul3IsProduct(|xgrid|, |qgrid|, |flavors|, i, j, k);
    Reshape3Index(Flatten(table.rows), |xgrid|, |qgrid|, |flavors|, i, j, k);
  }

  /** No value is lost or reordered: reading the block's values out gives the
      table cells, row by row. */
  lemma ReshapedKeepsCells(xgrid: seq<string>, qgrid: seq<string>, flavors: seq<string>, table: Table)
    requires Reshaped(xgrid, qgrid, flavors, table).Ok?
    ensures Flatten(Flatten(Reshaped(xgrid, qgrid, flavors, table).value.values)) == Flatten(table.rows)
  {
    Mul3IsProduct(|xgrid|, |qgrid|, |flavors|, 0, 0, 0);
    Reshape3RoundTrip(Flatten(table.rows), |xgrid|, |qgrid|, |flavors|);
  }

  /** The flavor line heads the value table: when it holds no tab and some
      flavor id, the table has one column per flavor id, the ids themselves.
      (A blank flavor line gives no flavors, and the table's header is then
      its first non-blank line.) */
  lemma FlavorLineIsHeader(content: string)
    requires MemberBlock(content).Ok?
    requires '\t' !in BlockLines(content)[2]
    ensures var lines := BlockLines(content);
            MemberBlock(content).value.flavors != [] ==>
              ReadTable(lines[2] + "\n" + lines[3]).value.columns == MemberBlock(content).value.flavors
  {
    var lines := BlockLines(content);
    var fl := lines[2];
    SplitPieceNoSeparator(Strip(content), '\n', 3, 2);
    assert forall k :: 0 <= k < |fl| ==> fl[k] != '\n' by {
      forall k | 0 <= k < |fl| ensures fl[k] != '\n' {
        assert fl[k] in fl;
      }
    }
    SplitAtFirst(fl, '\n', lines[3]);
    assert forall k :: 0 <= k < |fl| ==> fl[k] != '\t' by {
      forall k | 0 <= k < |fl| ensures fl[k] != '\t' {
        assert fl[k] in fl;
      }
    }
    GridTokensWithoutTabs(fl);
    var tlines := Split(fl + "\n" + lines[3], "\n");
    assert tlines == [fl] + Split(lines[3], "\n");
    assert tlines[0] == fl && tlines[1..] == Split(lines[3], "\n");
  }

  // ---------------------------------------------------------------------
  // One member

  /** What `member` hands back in place of the block arrays: `np.array([])`. */
  datatype Patch = EmptyArray

  datatype MemberOut = MemberOut(header: Header, patches: seq<Patch>)

  /** The filters `member` understands: a sequence of values, a string (a
      sequence of characters, tested by substring), or an integer `range`. */
  datatype Filter = Items(items: seq<Value>) | Chars(text: string) | IntRange(start: int, stop: int, step: int)

  /** `id in filter` for the four-digit id string. */
  predicate InFilter(id: string, f: Filter)
  {
    match f
    case Items(items) => Text(id) in items
    case Chars(text) => Contains(text, id)
    case IntRange(_, _, _) => false   // a range holds only integers
  }

  const DOES_NOT_MATCH := "' does not match members "
  const NAME_CONVENTION := "name convention"

  function NameMessage(name: string): string
  {
    "File '" + name + DOES_NOT_MATCH + NAME_CONVENTION
  }

  /** The block segments of a member file: the parts after the header, the
      part after the last "---" dropped when it is blank. */
  function Segments(content: string): (segs: seq<string>)
    ensures var parts := Split(content, "---");
            && (|parts| >= 2 && Strip(parts[|parts| - 1]) != "" ==> segs == parts[1..])
            && (|parts| >= 2 && Strip(parts[|parts| - 1]) == "" ==> segs == parts[1..|parts| - 1])
            && (|parts| == 1 ==> segs == [])
  {
    var parts := Split(content, "---");
    var kept := if Strip(parts[|parts| - 1]) == "" then parts[..|parts| - 1] else parts;
    if |kept| <= 1 then [] else kept[1..]
  }

  /** `member_block` on each segment in turn; the first failure stops it. */
  function ParseBlocks(segs: seq<string>): Result<seq<Block>>
  {
    Sequence(MapResults(MemberBlock, segs))
  }

  /** `member(path, errortype, filter)` as a value. */
  function MemberSpec(fs: FileSystem, yaml: string -> YamlDoc, path: Path, errortype: Option<string>,
                      filter: Option<Filter>): (r: Result<MemberOut>)
    ensures r.Ok? ==> r.value.patches == [EmptyArray]
    ensures r.Ok? ==> var id := MatchMemberName(Name(Parent(path)), Name(path));
                      && id.Some?
                      && (filter.Some? ==> InFilter(id.value, filter.value))
                      && "PdfType" in r.value.header && r.value.header["PdfType"] != Null
                      && (id.value == "0000" ==> r.value.header["PdfType"] == Text(CENTRAL))
  {
    var name := Name(path);
    match MatchMemberName(Name(Parent(path)), name)
    case None => Err(ValueError(NameMessage(name)))
    case Some(id) =>
      if filter.Some? && !InFilter(id, filter.value) then Err(MemberSkip(id))
      else ReadMemberSpec(fs, yaml, path, id, errortype)
  }

  /** The rest of `member` once the name and the filter have passed: read
      the file, type the header, drop a blank trailing part, parse the blocks. */
  function ReadMemberSpec(fs: FileSystem, yaml: string -> YamlDoc, path: Path, id: string,
                          errortype: Option<string>): (r: Result<MemberOut>)
    ensures r.Ok? ==> && r.value.patches == [EmptyArray]
                      && "PdfType" in r.value.header && r.value.header["PdfType"] != Null
                      && (id == "0000" ==> r.value.header["PdfType"] == Text(CENTRAL))
  {
    match fs.ReadText(path)
    case Err(e) => Err(e)
    case Ok(content) =>
      match yaml(Split(content, "---")[0])
      case Malformed => Err(YamlError)
      case NotMapping => Err(AttributeError)
      case Mapping(header) =>
        match MemberType(id, Get(header, "PdfType"), errortype)
        case Err(e) => Err(e)
        case Ok(t) =>
          match ParseBlocks(Segments(content))
          case Err(e) => Err(e)
          case Ok(_) => Ok(MemberOut(header["PdfType" := t], [EmptyArray]))
  }

  /** `member(path, errortype, filter)`: check the name and the filter, then
      read the member. */
  method Member(fs: FileSystem, yaml: string -> YamlDoc, path: Path, errortype: Option<string>,
                filter: Option<Filter>) returns (r: Result<MemberOut>)
    ensures r == MemberSpec(fs, yaml, path, errortype, filter)
  {
    var name := Name(path);
    var matched := MatchMemberName(Name(Parent(path)), name);
    if matched.None? {
      return Err(ValueError(NameMessage(name)));
    }
    var id := matched.value;
    if filter.Some? && !InFilter(id, filter.value) {
      return Err(MemberSkip(id));
    }
    r := ReadMember(fs, yaml, path, id, errortype);
  }

  /** The reading half of `member`: the header from the text before the
      first "---", its `PdfType` set by `member_type`, then every block. */
  method ReadMember(fs: FileSystem, yaml: string -> YamlDoc, path: Path, id: string,
                    errortype: Option<string>) returns (r: Result<MemberOut>)
    ensures r == ReadMemberSpec(fs, yaml, path, id, errortype)
  {
    var read := fs.ReadText(path);
    if read.Err? {
      return Err(read.error);
    }
    var content := read.value;
    var head, segments := SplitMember(content);
    var doc := yaml(head);
    if doc.Malformed? {
      return Err(YamlError);
    }
    if doc.NotMapping? {
      return Err(AttributeError);
    }
    var header := doc.entries;
    var pdftype := MemberType(id, Get(header, "PdfType"), errortype);
    if pdftype.Err? {
      return Err(pdftype.error);
    }
    header := header["PdfType" := pdftype.value];
    var blocks := Traverse(MemberBlock, segments);
    if blocks.Err? {
      return Err(blocks.error);
    }
    r := Ok(MemberOut(header, [EmptyArray]));
  }

  /** The text of a member cut at every "---": the header text before the
      first cut, and the block segments after it, a blank last one dropped. */
  method SplitMember(content: string) returns (head: string, segments: seq<string>)
    ensures head == Split(content, "---")[0]
    ensures segments == Segments(content)
  {
    var parts := Split(content, "---");
    head := parts[0];
    if Strip(parts[|parts| - 1]) == "" {
      parts := parts[..|parts| - 1];
    }
    segments := if |parts| <= 1 then [] else parts[1..];
  }

  /** `member` checks the name first, then the filter, and only then reads
      the file. */
  lemma MemberSpecSteps(fs: FileSystem, yaml: string -> YamlDoc, path: Path, errortype: Option<string>,
                        filter: Option<Filter>)
    ensures var id := MatchMemberName(Name(Parent(path)), Name(path));
            var r := MemberSpec(fs, yaml, path, errortype, filter);
            && (id.None? ==> r == Err(ValueError(NameMessage(Name(path)))))
            && (id.Some? && filter.Some? && !InFilter(id.value, filter.value) ==> r == Err(MemberSkip(id.value)))
            && (id.Some? && (filter.None? || InFilter(id.value, filter.value)) ==>
                  r == ReadMemberSpec(fs, yaml, path, id.value, errortype))
  {
  }

  /** Reading a member succeeds exactly when the file is a regular file, the
      text before the first "---" is a YAML mapping, `member_type` accepts its
      `PdfType`, and every block segment parses. */
  lemma ReadMemberSpecOk(fs: FileSystem, yaml: string -> YamlDoc, path: Path, id: string, errortype: Option<string>)
    ensures var r := ReadMemberSpec(fs, yaml, path, id, errortype);
            r.Ok? <==>
              && fs.IsFile(path)
              && var content := fs.nodes[path].content;
                 var doc := yaml(Split(content, "---")[0]);
                 && doc.Mapping?
                 && MemberType(id, Get(doc.entries, "PdfType"), errortype).Ok?
                 && forall i :: 0 <= i < |Segments(content)| ==> MemberBlock(Segments(content)[i]).Ok?
  {
    if fs.IsFile(path) {
      var content := fs.nodes[path].content;
      var doc := yaml(Split(content, "---")[0]);
      if doc.Mapping? && MemberType(id, Get(doc.entries, "PdfType"), errortype).Ok? {
        var segs := Segments(content);
        assert ReadMemberSpec(fs, yaml, path, id, errortype).Ok? <==> ParseBlocks(segs).Ok?;
        ParseBlocksSpec(segs);
      }
    }
  }

  /** The header of a member read without error: the file's mapping with
      `PdfType` set to what `member_type` makes of it and every other key as
      the file gives it. */
  lemma ReadMemberHeader(fs: FileSystem, yaml: string -> YamlDoc, path: Path, id: string, errortype: Option<string>)
    requires ReadMemberSpec(fs, yaml, path, id, errortype).Ok?
    ensures var out := ReadMemberSpec(fs, yaml, path, id, errortype).value;
            var doc := yaml(Split(fs.nodes[path].content, "---")[0]);
            && fs.IsFile(path) && doc.Mapping?
            && out.header["PdfType"] == MemberType(id, Get(doc.entries, "PdfType"), errortype).value
            && (forall key :: key != "PdfType" ==> (key in out.header <==> key in doc.entries))
            && (forall key :: key != "PdfType" && key in doc.entries ==> out.header[key] == doc.entries[key])
  {
  }

  /** Why reading a member fails: the file cannot be read, the header text is
      malformed or not a mapping, `member_type` refuses its `PdfType`, or a
      block does not parse, the first such block's error propagating. */
  lemma ReadMemberSpecErr(fs: FileSystem, yaml: string -> YamlDoc, path: Path, id: string, errortype: Option<string>)
    ensures var r := ReadMemberSpec(fs, yaml, path, id, errortype);
            && (!fs.IsFile(path) ==> r == Err(OSError(path)))
            && (fs.IsFile(path) ==>
                  var content := fs.nodes[path].content;
                  var doc := yaml(Split(content, "---")[0]);
                  && (doc.Malformed? ==> r == Err(YamlError))
                  && (doc.NotMapping? ==> r == Err(AttributeError))
                  && (doc.Mapping? && MemberType(id, Get(doc.entries, "PdfType"), errortype).Err? ==>
                        r == Err(MemberType(id, Get(doc.entries, "PdfType"), errortype).error))
                  && (doc.Mapping? && MemberType(id, Get(doc.entries, "PdfType"), errortype).Ok? && r.Err? ==>
                        exists i :: 0 <= i < |Segments(content)| && MemberBlock(Segments(content)[i]) == Err(r.error)
                                    && forall j :: 0 <= j < i ==> MemberBlock(Segments(content)[j]).Ok?))
  {
    if fs.IsFile(path) {
      ParseBlocksSpec(Segments(fs.nodes[path].content));
    }
  }

  /** The filter is applied before the file is read: an excluded member is
      skipped whatever the file system holds. */
  lemma MemberSkipBeforeRead(fs1: FileSystem, fs2: FileSystem, yaml: string -> YamlDoc, path: Path,
                             errortype: Option<string>, f: Filter)
    requires MatchMemberName(Name(Parent(path)), Name(path)).Some?
    requires !InFilter(MatchMemberName(Name(Parent(path)), Name(path)).value, f)
    ensures MemberSpec(fs1, yaml, path, errortype, Some(f)) == MemberSpec(fs2, yaml, path, errortype, Some(f))
                                                         == Err(MemberSkip(MatchMemberName(Name(Parent(path)), Name(path)).value))
  {
  }

  /** The blocks of a member are those of its segments in order; a failing
      segment stops the reading with its error, the first one winning. */
  lemma ParseBlocksSpec(segs: seq<string>)
    ensures ParseBlocks(segs).Ok? <==> forall i :: 0 <= i < |segs| ==> MemberBlock(segs[i]).Ok?
    ensures ParseBlocks(segs).Ok? ==> |ParseBlocks(segs).value| == |segs|
    ensures ParseBlocks(segs).Err? ==>
              exists i :: 0 <= i < |segs| && MemberBlock(segs[i]) == Err(ParseBlocks(segs).error)
                          && forall j :: 0 <= j < i ==> MemberBlock(segs[j]).Ok?
  {
    var results := MapResults(MemberBlock, segs);
    SequenceOk(results);
    if Sequence(results).Err? {
      SequenceFirstError(results);
    }
  }

  // ---------------------------------------------------------------------
  // The whole set

  /** The filter `parse` accepts: a member filter, or a slice. */
  datatype SetFilter = Given(filter: Filter) | Sliced(start: Option<int>, stop: Option<int>, step: Option<int>)

  const NONE_NOT_INTEGER := "'NoneType' object cannot be interpreted as an integer"
  const NEGATIVE_LENGTH := "length should not be negative"
  const ZERO_STEP := "slice step cannot be zero"

  /** `slice(start, stop, step).indices(length)`, as CPython computes it. */
  function SliceIndices(start: Option<int>, step: Option<int>, length: Option<int>): (r: Result<(int, int, int)>)
    ensures r.Err? <==> length.None? || length.value < 0 || step == Some(0)
    ensures r.Ok? ==> var (b, e, st) := r.value;
                      && st != 0 && (step.None? ==> st == 1)
                      && (st > 0 ==> 0 <= b <= length.value && e == length.value)
                      && (st < 0 ==> -1 <= b <= length.value - 1 && e == length.value - 1)
  {
    if length.None? then Err(TypeError(NONE_NOT_INTEGER))
    else if length.value < 0 then Err(ValueError(NEGATIVE_LENGTH))
    else if step.Some? && step.value == 0 then Err(ValueError(ZERO_STEP))
    else
      var len := length.value;
      var st := if step.Some? then step.value else 1;
      var lower := if st < 0 then -1 else 0;
      var upper := if st < 0 then len - 1 else len;
      var b := if start.None? then (if st < 0 then upper else lower)
               else Clamp(if start.value < 0 then start.value + len else start.value, lower, upper);
      var e := Clamp(len, lower, upper);
      Ok((b, e, st))
  }

  function Clamp(x: int, lower: int, upper: int): int
  {
    if x < lower then lower else if x > upper then upper else x
  }

  /** `range(*filter.indices(filter.stop))` for a slice; other filters pass. */
  function NormaliseFilter(filter: Option<SetFilter>): Result<Option<Filter>>
  {
    match filter
    case None => Ok(None)
    case Some(Given(f)) => Ok(Some(f))
    case Some(Sliced(start, stop, step)) =>
      match SliceIndices(start, step, stop)
      case Err(e) => Err(e)
      case Ok((b, e, st)) => Ok(Some(IntRange(b, e, st)))
  }

  /** The entries of `names` the member glob selects, in order. */
  function GlobMatches(names: seq<string>, setname: string): (r: seq<string>)
    ensures forall n :: n in r <==> n in names && Globbed(setname, n)
  {
    if names == [] then []
    else (if Globbed(setname, names[0]) then [names[0]] else []) + GlobMatches(names[1..], setname)
  }

  /** `sorted(pdfdir.glob(f"{setname}_*.dat"))`, by entry name; a `pdfdir`
      that is not a directory has no members. */
  function MemberNames(fs: FileSystem, pdfdir: Path, setname: string): (r: seq<string>)
    ensures Sorted(r)
    ensures forall n :: n in r <==> fs.IsDir(pdfdir) && n in fs.nodes[pdfdir].entries && Globbed(setname, n)
  {
    if !fs.IsDir(pdfdir) then []
    else
      var names := GlobMatches(fs.nodes[pdfdir].entries, setname);
      var sorted := SortNames(names);
      assert forall n :: n in sorted <==> n in multiset(sorted);
      assert forall n :: n in names <==> n in multiset(names);
      sorted
  }

  /** The path of each member name under `pdfdir`. */
  function MemberPaths(pdfdir: Path, names: seq<string>): (r: seq<Path>)
    ensures |r| == |names| && forall i :: 0 <= i < |names| ==> r[i] == pdfdir + [names[i]]
  {
    if names == [] then [] else [pdfdir + [names[0]]] + MemberPaths(pdfdir, names[1..])
  }

  /** What `parse` does with the result of one member. */
  datatype Outcome = Loaded(patches: seq<Patch>) | Excluded(message: string) | Skipped | Fatal(error: Error)

  /** A `ValueError` message that marks a member as unidentified. */
  predicate Marked(message: string)
  {
    Contains(message, "0000") || Contains(message, NAME_CONVENTION)
  }

  /** The `try`/`except` around `member`. */
  function Classify(r: Result<MemberOut>): Outcome
  {
    match r
    case Ok(out) => Loaded(out.patches)
    case Err(ValueError(message)) => if Marked(message) then Excluded(message) else Fatal(ValueError(message))
    case Err(MemberSkip(_)) => Skipped
    case Err(e) => Fatal(e)
  }

  /** What each outcome says of the result it classifies. */
  lemma ClassifyInverse(r: Result<MemberOut>)
    ensures Classify(r).Loaded? <==> r.Ok?
    ensures Classify(r).Skipped? <==> r.Err? && r.error.MemberSkip?
    ensures Classify(r).Excluded? <==> r.Err? && r.error.ValueError? && Marked(r.error.message)
    ensures Classify(r).Excluded? ==> r.error.message == Classify(r).message
    ensures Classify(r).Fatal? ==> r.Err? && r.error == Classify(r).error
  {
  }

  /** The lists `parse` accumulates; the function itself returns "". */
  datatype Parsed = Parsed(members: seq<seq<Patch>>, unidentified: seq<(Path, string)>)

  /** The loop of `parse` over the member paths and their outcomes. */
  function Collect(paths: seq<Path>, outcomes: seq<Outcome>): Result<Parsed>
    requires |paths| == |outcomes|
  {
    if paths == [] then Ok(Parsed([], []))
    else
      var n := |paths| - 1;
      match Collect(paths[..n], outcomes[..n])
      case Err(e) => Err(e)
      case Ok(acc) =>
        Extend(acc, paths[n], outcomes[n])
  }

  /** One turn of the loop of `parse`: keep the patches of a loaded member,
      record an excluded one, pass over a skipped one, raise a fatal error. */
  function Extend(acc: Parsed, path: Path, outcome: Outcome): Result<Parsed>
  {
    match outcome
    case Loaded(patches) => Ok(acc.(members := acc.members + [patches]))
    case Excluded(message) => Ok(acc.(unidentified := acc.unidentified + [(path, message)]))
    case Skipped => Ok(acc)
    case Fatal(e) => Err(e)
  }

  /** The loop after one more member. */
  lemma CollectStep(paths: seq<Path>, outcomes: seq<Outcome>, i: nat)
    requires |paths| == |outcomes| && i < |paths|
    requires Collect(paths[..i], outcomes[..i]).Ok?
    ensures Collect(paths[..i + 1], outcomes[..i + 1]) == Extend(Collect(paths[..i], outcomes[..i]).value, paths[i], outcomes[i])
  {
    assert paths[..i + 1][..i] == paths[..i] && outcomes[..i + 1][..i] == outcomes[..i];
  }

  /** The patches of the loaded members, in order. */
  function LoadedOf(outcomes: seq<Outcome>): (r: seq<seq<Patch>>)
    ensures |r| <= |outcomes|
    ensures (forall i :: 0 <= i < |outcomes| ==> !outcomes[i].Loaded?) ==> r == []
  {
    if outcomes == [] then []
    else
      var n := |outcomes| - 1;
      var front := LoadedOf(outcomes[..n]);
      assert forall i :: 0 <= i < n ==> outcomes[..n][i] == outcomes[i];
      match outcomes[n]
      case Loaded(p) => front + [p]
      case _ => front
  }

  /** The excluded members with their messages, in order. */
  function ExcludedOf(paths: seq<Path>, outcomes: seq<Outcome>): (r: seq<(Path, string)>)
    requires |paths| == |outcomes|
  {
    if paths == [] then []
    else
      var n := |paths| - 1;
      var front := ExcludedOf(paths[..n], outcomes[..n]);
      match outcomes[n]
      case Excluded(message) => front + [(paths[n], message)]
      case _ => front
  }

  /** Dropping the last outcome drops its patches from the end, if it loaded. */
  lemma LoadedOfLast(outcomes: seq<Outcome>)
    requires outcomes != []
    ensures LoadedOf(outcomes) == LoadedOf(outcomes[..|outcomes| - 1]) +
              (if outcomes[|outcomes| - 1].Loaded? then [outcomes[|outcomes| - 1].patches] else [])
  {
  }

  /** The loaded members in order: entry `k` is the patches of the member at
      position `idx[k]`, the positions increase, and every loaded member has
      one, so there is exactly one entry per loaded member. */
  lemma {:induction false} LoadedInOrder(outcomes: seq<Outcome>) returns (idx: seq<nat>)
    ensures |idx| == |LoadedOf(outcomes)|
    ensures forall k :: 0 <= k < |idx| ==> idx[k] < |outcomes| && outcomes[idx[k]] == Loaded(LoadedOf(outcomes)[k])
    ensures forall k, l :: 0 <= k < l < |idx| ==> idx[k] < idx[l]
    ensures forall i :: 0 <= i < |outcomes| && outcomes[i].Loaded? ==> i in idx
  {
    idx := LoadedPositions(outcomes);
    forall k | 0 <= k < |idx| ensures idx[k] < |outcomes| && outcomes[idx[k]] == Loaded(LoadedOf(outcomes)[k]) {
      LoadedPositionAt(outcomes, k);
    }
    forall k, l | 0 <= k < l < |idx| ensures idx[k] < idx[l] {
      LoadedPositionsIncrease(outcomes, k, l);
    }
    forall i | 0 <= i < |outcomes| && outcomes[i].Loaded? ensures i in idx {
      LoadedPositionsComplete(outcomes, i);
    }
  }

  /** The positions of the loaded outcomes, in order. */
  function LoadedPositions(outcomes: seq<Outcome>): (r: seq<nat>)
    ensures |r| == |LoadedOf(outcomes)|
    ensures forall k :: 0 <= k < |r| ==> r[k] < |outcomes|
  {
    if outcomes == [] then []
    else
      var n := |outcomes| - 1;
      LoadedOfLast(outcomes);
      LoadedPositions(outcomes[..n]) + (if outcomes[n].Loaded? then [n] else [])
  }

  lemma {:induction false} LoadedPositionAt(outcomes: seq<Outcome>, k: nat)
    requires k < |LoadedPositions(outcomes)|
    ensures outcomes[LoadedPositions(outcomes)[k]] == Loaded(LoadedOf(outcomes)[k])
  {
    var n := |outcomes| - 1;
    var front := outcomes[..n];
    LoadedOfLast(outcomes);
    if k < |LoadedPositions(front)| {
      LoadedPositionAt(front, k);
      assert LoadedPositions(outcomes)[k] == LoadedPositions(front)[k];
      assert LoadedOf(outcomes)[k] == LoadedOf(front)[k];
      assert front[LoadedPositions(front)[k]] == outcomes[LoadedPositions(front)[k]];
    }
  }

  lemma {:induction false} LoadedPositionsIncrease(outcomes: seq<Outcome>, k: nat, l: nat)
    requires k < l < |LoadedPositions(outcomes)|
    ensures LoadedPositions(outcomes)[k] < LoadedPositions(outcomes)[l]
  {
    var n := |outcomes| - 1;
    var front := outcomes[..n];
    var before := LoadedPositions(front);
    assert LoadedPositions(outcomes)[k] == before[k];
    if l < |before| {
      LoadedPositionsIncrease(front, k, l);
    }
  }

  lemma {:induction false} LoadedPositionsComplete(outcomes: seq<Outcome>, i: nat)
    requires i < |outcomes| && outcomes[i].Loaded?
    ensures i in LoadedPositions(outcomes)
  {
    var n := |outcomes| - 1;
    var front := outcomes[..n];
    var last := if outcomes[n].Loaded? then [n] else [];
    assert LoadedPositions(outcomes) == LoadedPositions(front) + last;
    if i < n {
      assert front[i] == outcomes[i];
      LoadedPositionsComplete(front, i);
    } else {
      assert last == [n];
    }
  }

  /** The excluded members in order: entry `k` is the path at position
      `idx[k]` with the message of its `ValueError`, the positions increase,
      and every excluded member has one, so each is recorded exactly once. */
  lemma {:induction false} ExcludedInOrder(paths: seq<Path>, outcomes: seq<Outcome>) returns (idx: seq<nat>)
    requires |paths| == |outcomes|
    ensures |idx| == |ExcludedOf(paths, outcomes)|
    ensures forall k :: 0 <= k < |idx| ==>
              && idx[k] < |paths| && paths[idx[k]] == ExcludedOf(paths, outcomes)[k].0
              && outcomes[idx[k]] == Excluded(ExcludedOf(paths, outcomes)[k].1)
    ensures forall k, l :: 0 <= k < l < |idx| ==> idx[k] < idx[l]
    ensures forall i :: 0 <= i < |outcomes| && outcomes[i].Excluded? ==> i in idx
  {
    if paths == [] {
      idx := [];
    } else {
      var n := |paths| - 1;
      var front := outcomes[..n];
      var before := ExcludedInOrder(paths[..n], front);
      var excluded := ExcludedOf(paths[..n], front);
      assert forall i :: 0 <= i < n ==> paths[..n][i] == paths[i] && front[i] == outcomes[i];
      if outcomes[n].Excluded? {
        var e := (paths[n], outcomes[n].message);
        assert ExcludedOf(paths, outcomes) == excluded + [e];
        idx := before + [n];
        forall k | 0 <= k < |idx|
          ensures && idx[k] < |paths| && paths[idx[k]] == ExcludedOf(paths, outcomes)[k].0
                  && outcomes[idx[k]] == Excluded(ExcludedOf(paths, outcomes)[k].1)
        {
          if k < |before| {
            assert idx[k] == before[k] && ExcludedOf(paths, outcomes)[k] == excluded[k];
          } else {
            assert ExcludedOf(paths, outcomes)[k] == e;
          }
        }
        forall i | 0 <= i < |outcomes| && outcomes[i].Excluded? ensures i in idx {
          if i < n {
            assert front[i].Excluded? && i in before;
          } else {
            assert idx[|before|] == n;
          }
        }
      } else {
        assert ExcludedOf(paths, outcomes) == excluded;
        idx := before;
        forall i | 0 <= i < |outcomes| && outcomes[i].Excluded? ensures i in idx {
          assert front[i].Excluded?;
        }
      }
    }
  }

  /** Every loaded member comes from a loaded outcome. */
  lemma LoadedFrom(outcomes: seq<Outcome>, m: seq<Patch>) returns (i: nat)
    requires m in LoadedOf(outcomes)
    ensures i < |outcomes| && outcomes[i] == Loaded(m)
  {
    var idx := LoadedInOrder(outcomes);
    var k :| 0 <= k < |LoadedOf(outcomes)| && LoadedOf(outcomes)[k] == m;
    i := idx[k];
  }

  /** Every excluded member comes from an excluded outcome at its path. */
  lemma ExcludedFrom(paths: seq<Path>, outcomes: seq<Outcome>, e: (Path, string)) returns (i: nat)
    requires |paths| == |outcomes|
    requires e in ExcludedOf(paths, outcomes)
    ensures i < |paths| && paths[i] == e.0 && outcomes[i] == Excluded(e.1)
  {
    var idx := ExcludedInOrder(paths, outcomes);
    var k :| 0 <= k < |ExcludedOf(paths, outcomes)| && ExcludedOf(paths, outcomes)[k] == e;
    i := idx[k];
  }

  /** The loop completes exactly when no member fails fatally; it then holds
      the loaded members and the excluded ones, each in order. */
  lemma {:induction false} CollectOk(paths: seq<Path>, outcomes: seq<Outcome>)
    requires |paths| == |outcomes|
    ensures Collect(paths, outcomes).Ok? <==> forall i :: 0 <= i < |outcomes| ==> !outcomes[i].Fatal?
    ensures Collect(paths, outcomes).Ok? ==>
              Collect(paths, outcomes).value == Parsed(LoadedOf(outcomes), ExcludedOf(paths, outcomes))
  {
    if paths != [] {
      var n := |paths| - 1;
      var fo := outcomes[..n];
      CollectOk(paths[..n], fo);
      assert forall i :: 0 <= i < n ==> fo[i] == outcomes[i];
      if Collect(paths[..n], fo).Err? {
        var i :| 0 <= i < n && fo[i].Fatal?;
        assert outcomes[i].Fatal?;
      }
    }
  }

  /** A failing loop fails with the first fatal error. */
  lemma {:induction false} CollectFirstFatal(paths: seq<Path>, outcomes: seq<Outcome>)
    requires |paths| == |outcomes| && Collect(paths, outcomes).Err?
    ensures exists i :: 0 <= i < |outcomes| && outcomes[i] == Fatal(Collect(paths, outcomes).error)
                        && forall j :: 0 <= j < i ==> !outcomes[j].Fatal?
  {
    var n := |paths| - 1;
    var fo := outcomes[..n];
    assert forall i :: 0 <= i < n ==> fo[i] == outcomes[i];
    CollectOk(paths[..n], fo);
    if Collect(paths[..n], fo).Err? {
      CollectFirstFatal(paths[..n], fo);
      var i :| 0 <= i < n && fo[i] == Fatal(Collect(paths[..n], fo).error) && forall j :: 0 <= j < i ==> !fo[j].Fatal?;
      assert outcomes[i] == Fatal(Collect(paths, outcomes).error);
    } else {
      assert outcomes[n] == Fatal(Collect(paths, outcomes).error);
    }
  }

  lemma {:induction false} CollectErrorStops(paths: seq<Path>, outcomes: seq<Outcome>, k: nat)
    requires |paths| == |outcomes| && k <= |paths|
    requires Collect(paths[..k], outcomes[..k]).Err?
    ensures Collect(paths, outcomes) == Collect(paths[..k], outcomes[..k])
    decreases |paths| - k
  {
    if k < |paths| {
      assert paths[..k + 1][..k] == paths[..k];
      assert outcomes[..k + 1][..k] == outcomes[..k];
      CollectErrorStops(paths, outcomes, k + 1);
    } else {
      assert paths[..k] == paths && outcomes[..k] == outcomes;
    }
  }

  /** The outcome of each result, in order. */
  function Classified(results: seq<Result<MemberOut>>): (r: seq<Outcome>)
    ensures |r| == |results|
    ensures forall i :: 0 <= i < |results| ==> r[i] == Classify(results[i])
  {
    if results == [] then [] else [Classify(results[0])] + Classified(results[1..])
  }

  /** The outcome of each member, read without the set's error type. */
  function Outcomes(fs: FileSystem, yaml: string -> YamlDoc, paths: seq<Path>, filter: Option<Filter>): (r: seq<Outcome>)
    ensures |r| == |paths|
    ensures forall i {:trigger MemberSpec(fs, yaml, paths[i], None, filter)} :: 0 <= i < |paths| ==>
              r[i] == Classify(MemberSpec(fs, yaml, paths[i], None, filter))
  {
    Classified(MemberResults(fs, yaml, paths, filter))
  }

  /** `parse(setname, filter)` as a value, with the accumulated lists as its result. */
  function ParseSpec(host: Host, yaml: string -> YamlDoc, setname: string, filter: Option<SetFilter>): Result<Parsed>
  {
    match Locate(host, setname)
    case Err(e) => Err(e)
    case Ok(pdfdir) =>
      match host.fs.ReadText(Slash(pdfdir, setname + ".info"))
      case Err(e) => Err(e)
      case Ok(info) =>
        if yaml(info).Malformed? then Err(YamlError)
        else
          match NormaliseFilter(filter)
          case Err(e) => Err(e)
          case Ok(f) =>
            var paths := MemberPaths(pdfdir, MemberNames(host.fs, pdfdir, setname));
            Collect(paths, Outcomes(host.fs, yaml, paths, f))
  }

  /** `parse(setname, filter)`: locate the set, read its info file, then read
      every member in name order, collecting the loaded and the unidentified. */
  method Parse(host: Host, yaml: string -> YamlDoc, setname: string, filter: Option<SetFilter>)
    returns (r: Result<Parsed>)
    ensures r == ParseSpec(host, yaml, setname, filter)
  {
    var located := Locate(host, setname);
    if located.Err? {
      return Err(located.error);
    }
    var pdfdir := located.value;
    var info := host.fs.ReadText(Slash(pdfdir, setname + ".info"));
    if info.Err? {
      return Err(info.error);
    }
    if yaml(info.value).Malformed? {
      return Err(YamlError);
    }
    var normalised := NormaliseFilter(filter);
    if normalised.Err? {
      return Err(normalised.error);
    }
    var f := normalised.value;
    var paths := MemberPaths(pdfdir, MemberNames(host.fs, pdfdir, setname));
    r := CollectMembers(host.fs, yaml, paths, f);
  }

  /** The loop of `parse` over the sorted member paths: read each member
      without an error type; keep the patches of a loaded one, record a marked
      `ValueError` as unidentified, pass over a skipped one, re-raise the rest. */
  method CollectMembers(fs: FileSystem, yaml: string -> YamlDoc, paths: seq<Path>, f: Option<Filter>)
    returns (r: Result<Parsed>)
    ensures r == Collect(paths, Outcomes(fs, yaml, paths, f))
  {
    ghost var outcomes := Outcomes(fs, yaml, paths, f);
    var members: seq<seq<Patch>> := [];
    var unidentified: seq<(Path, string)> := [];
    var i := 0;
    while i < |paths|
      invariant 0 <= i <= |paths|
      invariant Collect(paths[..i], outcomes[..i]) == Ok(Parsed(members, unidentified))
    {
      var result := Member(fs, yaml, paths[i], None, f);
      var outcome := Classify(result);
      assert outcomes[i] == outcome;
      CollectStep(paths, outcomes, i);
      match outcome {
        case Loaded(patches) =>
          members := members + [patches];
        case Excluded(message) =>
          unidentified := unidentified + [(paths[i], message)];
        case Skipped =>
        case Fatal(e) =>
          CollectErrorStops(paths, outcomes, i + 1);
          return Err(e);
      }
      i := i + 1;
    }
    assert paths[..i] == paths && outcomes[..i] == outcomes;
    r := Ok(Parsed(members, unidentified));
  }

  // ---------------------------------------------------------------------
  // What a parse yields

  lemma NameMessageMarked(name: string)
    ensures Marked(NameMessage(name))
  {
    ContainsWhole(NAME_CONVENTION);
    ContainsInConcat("File '" + name + DOES_NOT_MATCH, NAME_CONVENTION, "", NAME_CONVENTION);
    assert NameMessage(name) == "File '" + name + DOES_NOT_MATCH + NAME_CONVENTION + "";
  }

  /** A file in the set directory whose name breaks the convention is
      recorded as unidentified, with its message. */
  lemma NameMismatchExcluded(fs: FileSystem, yaml: string -> YamlDoc, path: Path, f: Option<Filter>)
    requires MatchMemberName(Name(Parent(path)), Name(path)).None?
    ensures Classify(MemberSpec(fs, yaml, path, None, f)) == Excluded(NameMessage(Name(path)))
  {
    NameMessageMarked(Name(path));
  }

  /** Member 0000 with an explicit type other than "central" is recorded as
      unidentified rather than stopping the parse. */
  lemma NonCentralZeroExcluded(fs: FileSystem, yaml: string -> YamlDoc, path: Path, f: Option<Filter>)
    requires MatchMemberName(Name(Parent(path)), Name(path)) == Some("0000")
    requires f.Some? ==> InFilter("0000", f.value)
    requires fs.IsFile(path)
    requires var doc := yaml(Split(fs.nodes[path].content, "---")[0]);
             doc.Mapping? && Get(doc.entries, "PdfType") !in {Null, Text(CENTRAL)}
    ensures Classify(MemberSpec(fs, yaml, path, None, f)).Excluded?
  {
    var doc := yaml(Split(fs.nodes[path].content, "---")[0]);
    var t := MemberType("0000", Get(doc.entries, "PdfType"), None);
    assert t.Err?;
  }

  /** The reshape error names the array size, so a block of 10000 values that
      does not fit its grids is taken for a member-0000 problem: the member is
      recorded as unidentified instead of the error being raised. */
  lemma ReshapeErrorOfTenThousandIsMarked(a: nat, b: nat, c: nat)
    ensures Marked(ReshapeMessage(10000, a, b, c))
  {
    TenThousandHoldsFourZeros();
    var m := CANNOT_RESHAPE + NatToString(10000);
    ContainsAfter(CANNOT_RESHAPE, NatToString(10000), "0000");
    ContainsBefore(m, INTO_SHAPE, "0000");
    m := m + INTO_SHAPE;
    ContainsBefore(m, NatToString(a), "0000");
    m := m + NatToString(a);
    ContainsBefore(m, ",", "0000");
    m := m + ",";
    ContainsBefore(m, NatToString(b), "0000");
    m := m + NatToString(b);
    ContainsBefore(m, ",", "0000");
    m := m + ",";
    ContainsBefore(m, NatToString(c), "0000");
    m := m + NatToString(c);
    ContainsBefore(m, ")", "0000");
  }

  /** What a completed loop of `parse` holds, given the member results it
      classified: every loaded member contributes the placeholder patches;
      every unidentified entry is a member path whose reading raised that
      marked `ValueError`; and every member was loaded, skipped or recorded,
      none raising anything else. */
  predicate CollectedFrom(paths: seq<Path>, results: seq<Result<MemberOut>>, out: Parsed)
    requires |paths| == |results|
  {
    && (forall m :: m in out.members ==> m == [EmptyArray])
    && |out.members| <= |paths|
    && (forall e :: e in out.unidentified ==>
          Marked(e.1) && exists i :: 0 <= i < |paths| && paths[i] == e.0 && results[i] == Err(ValueError(e.1)))
    && (forall i :: 0 <= i < |paths| ==>
          results[i].Ok? || results[i].error.MemberSkip? || (results[i].error.ValueError? && Marked(results[i].error.message)))
  }

  /** What the loop of `parse` yields from the classified results of its
      members, whatever produced them. */
  lemma CollectClassified(paths: seq<Path>, results: seq<Result<MemberOut>>, outcomes: seq<Outcome>)
    requires |paths| == |results| == |outcomes|
    requires forall i :: 0 <= i < |results| ==> outcomes[i] == Classify(results[i])
    requires forall i :: 0 <= i < |results| ==> results[i].Ok? ==> results[i].value.patches == [EmptyArray]
    requires Collect(paths, outcomes).Ok?
    ensures CollectedFrom(paths, results, Collect(paths, outcomes).value)
  {
    CollectOk(paths, outcomes);
    forall m | m in LoadedOf(outcomes) ensures m == [EmptyArray] {
      var i := LoadedFrom(outcomes, m);
      ClassifyInverse(results[i]);
    }
    forall e | e in ExcludedOf(paths, outcomes)
      ensures Marked(e.1) && exists i :: 0 <= i < |paths| && paths[i] == e.0 && results[i] == Err(ValueError(e.1))
    {
      var i := ExcludedFrom(paths, outcomes, e);
      ClassifyInverse(results[i]);
    }
    forall i | 0 <= i < |paths|
      ensures results[i].Ok? || results[i].error.MemberSkip? || (results[i].error.ValueError? && Marked(results[i].error.message))
    {
      ClassifyInverse(results[i]);
    }
  }

  /** The member results, path by path, that the loop of `parse` classifies. */
  function MemberResults(fs: FileSystem, yaml: string -> YamlDoc, paths: seq<Path>, filter: Option<Filter>)
    : (r: seq<Result<MemberOut>>)
    ensures |r| == |paths|
    ensures forall i :: 0 <= i < |paths| ==> r[i] == MemberSpec(fs, yaml, paths[i], None, filter)
  {
    if paths == [] then []
    else [MemberSpec(fs, yaml, paths[0], None, filter)] + MemberResults(fs, yaml, paths[1..], filter)
  }

  /** What the loop of `parse` yields when it completes, stated of the
      results of reading its members. */
  lemma CollectedMembers(fs: FileSystem, yaml: string -> YamlDoc, paths: seq<Path>, f: Option<Filter>)
    requires Collect(paths, Outcomes(fs, yaml, paths, f)).Ok?
    ensures CollectedFrom(paths, MemberResults(fs, yaml, paths, f), Collect(paths, Outcomes(fs, yaml, paths, f)).value)
  {
    var results := MemberResults(fs, yaml, paths, f);
    CollectClassified(paths, results, Classified(results));
  }

  /** A `range` filter holds integers, never the four-digit id string, so
      with one no member is ever loaded. */
  lemma RangeFilterLoadsNothing(fs: FileSystem, yaml: string -> YamlDoc, paths: seq<Path>, start: int, stop: int, step: int)
    requires Collect(paths, Outcomes(fs, yaml, paths, Some(IntRange(start, stop, step)))).Ok?
    ensures Collect(paths, Outcomes(fs, yaml, paths, Some(IntRange(start, stop, step)))).value.members == []
  {
    var outcomes := Outcomes(fs, yaml, paths, Some(IntRange(start, stop, step)));
    CollectOk(paths, outcomes);
    forall i | 0 <= i < |outcomes| ensures !outcomes[i].Loaded? {
      var r := MemberSpec(fs, yaml, paths[i], None, Some(IntRange(start, stop, step)));
      ClassifyInverse(r);
      assert r.Ok? ==> InFilter(MatchMemberName(Name(Parent(paths[i])), Name(paths[i])).value, IntRange(start, stop, step));
    }
  }

  /** A slice filter that `parse` accepts becomes a `range`. */
  lemma SliceBecomesRange(start: Option<int>, stop: Option<int>, step: Option<int>)
    requires NormaliseFilter(Some(Sliced(start, stop, step))).Ok?
    ensures NormaliseFilter(Some(Sliced(start, stop, step))).value.Some?
    ensures NormaliseFilter(Some(Sliced(start, stop, step))).value.value.IntRange?
  {
  }

  /** So a parse with a slice or a range filter loads no member at all. */
  lemma RangeOrSliceParseLoadsNothing(host: Host, yaml: string -> YamlDoc, setname: string, filter: SetFilter)
    requires filter.Sliced? || (filter.Given? && filter.filter.IntRange?)
    requires ParseSpec(host, yaml, setname, Some(filter)).Ok?
    ensures ParseSpec(host, yaml, setname, Some(filter)).value.members == []
  {
    var pdfdir := Locate(host, setname).value;
    var f := NormaliseFilter(Some(filter)).value;
    assert f.Some? && f.value.IntRange?;
    var paths := MemberPaths(pdfdir, MemberNames(host.fs, pdfdir, setname));
    assert f == Some(IntRange(f.value.start, f.value.stop, f.value.step));
    assert ParseSpec(host, yaml, setname, Some(filter)) == Collect(paths, Outcomes(host.fs, yaml, paths, f));
    RangeFilterLoadsNothing(host.fs, yaml, paths, f.value.start, f.value.stop, f.value.step);
  }
}
