/**
 * The export of the walk history as comma-separated text: a header row and
 * one row per walk, every field wrapped in double quotes. Number formatting
 * (`toFixed` and the default number-to-text conversion) is passed in.
 */
module Csv {

  import opened Wrappers
  import opened Text
  import opened Walks

  const Header: seq<string> :=
    ["Date", "Time", "Route", "Distance (km)", "Duration (min)", "Speed (km/h)", "Terrain Factor"]

  const FieldCount: nat := 7

  /**
   * The fields of one walk: distance with 2 decimals, duration with none,
   * speed with 1, and the terrain factor as the default number text.
   */
  function Fields(w: WalkRecord, toFixed: (real, nat) -> string, show: real -> string): (f: seq<string>)
    ensures |f| == FieldCount
  {
    [w.date, w.time, w.route, toFixed(w.distance, 2), toFixed(w.duration, 0), toFixed(w.speed, 1), show(w.terrain)]
  }

  /** `"${field}"`; a double quote inside the field is not escaped. */
  function Quote(field: string): string
  {
    "\"" + field + "\""
  }

  function QuoteAll(fields: seq<string>): (q: seq<string>)
    ensures |q| == |fields|
  {
    seq(|fields|, i requires 0 <= i < |fields| => Quote(fields[i]))
  }

  /** `row.map(field => `"${field}"`).join(',')` */
  function Line(fields: seq<string>): string
  {
    Join(QuoteAll(fields), ',')
  }

  /** The header row followed by one row per walk, oldest first. */
  function Table(data: seq<WalkRecord>, toFixed: (real, nat) -> string, show: real -> string): (t: seq<seq<string>>)
    ensures |t| == |data| + 1
  {
    [Header] + seq(|data|, i requires 0 <= i < |data| => Fields(data[i], toFixed, show))
  }

  /** Each row of a table as one line. */
  function Lines(table: seq<seq<string>>): (ls: seq<string>)
    ensures |ls| == |table|
  {
    seq(|table|, i requires 0 <= i < |table| => Line(table[i]))
  }

  /** The whole export: the lines joined with newlines. */
  function ConvertToCsv(data: seq<WalkRecord>, toFixed: (real, nat) -> string, show: real -> string): string
  {
    Join(Lines(Table(data, toFixed, show)), '\n')
  }

  /** A line of one or more fields opens and closes with a double quote. */
  lemma LineIsQuoted(fields: seq<string>)
    requires |fields| >= 1
    ensures var r := Line(fields); 2 <= |r| && r[0] == '"' && r[|r| - 1] == '"'
  {
    var q := QuoteAll(fields);
    JoinEnds(q, ',');
    assert q[0] == Quote(fields[0]) && q[|q| - 1] == Quote(fields[|fields| - 1]);
  }

  /** The export opens with the header line, and is only that line when no walk is saved. */
  lemma ExportStartsWithHeader(data: seq<WalkRecord>, toFixed: (real, nat) -> string, show: real -> string)
    ensures var r, h := ConvertToCsv(data, toFixed, show), Line(Header);
      |h| <= |r| && r[..|h|] == h && (|data| == 0 ==> r == h)
  {
    var ls := Lines(Table(data, toFixed, show));
    JoinEnds(ls, '\n');
    assert ls[0] == Line(Header);
  }

  /** A field the export can carry and read back: no double quote, no line break. */
  predicate IsPlainField(field: string)
  {
    '"' !in field && '\n' !in field
  }

  /**
   * What a line looks like when cut at its double quotes: an empty piece, the
   * first field, a comma, the second field, ..., the last field, an empty piece.
   */
  function QuotePieces(fields: seq<string>): (p: seq<string>)
    ensures |p| == 2 * |fields| + 1
  {
    seq(2 * |fields| + 1, k requires 0 <= k < 2 * |fields| + 1 =>
      if k % 2 == 1 then fields[k / 2] else if k == 0 || k == 2 * |fields| then "" else ",")
  }

  predicate IsCommaPiece(p: seq<string>, k: nat)
  {
    2 * k < |p| && p[2 * k] == ","
  }

  /**
   * A reader for one exported line: cut it at its double quotes and keep the
   * pieces between an opening and a closing quote, which must be separated by
   * single commas.
   */
  function ParseLine(s: string): Option<seq<string>>
  {
    var p := Split(s, '"');
    var n := |p| / 2;
    if |p| % 2 == 1 && n >= 1 && p[0] == "" && p[2 * n] == ""
       && forall k :: 1 <= k < n ==> IsCommaPiece(p, k)
    then Some(seq(n, i requires 0 <= i < n => p[2 * i + 1]))
    else None
  }

  lemma LineCons(fields: seq<string>)
    requires |fields| >= 2
    ensures Line(fields) == Quote(fields[0]) + "," + Line(fields[1..])
  {
    var q := QuoteAll(fields);
    assert q[0] == Quote(fields[0]);
    assert q[1..] == QuoteAll(fields[1..]);
  }

  lemma JoinCons(a: string, parts: seq<string>, sep: char)
    requires |parts| >= 1
    ensures Join([a] + parts, sep) == a + [sep] + Join(parts, sep)
  {
    assert ([a] + parts)[1..] == parts;
  }

  lemma QuotePiecesSingle(f: string)
    ensures QuotePieces([f]) == ["", f, ""]
  {
  }

  lemma QuotePiecesCons(fields: seq<string>)
    requires |fields| >= 2
    ensures QuotePieces(fields) == [""] + ([fields[0]] + ([","] + QuotePieces(fields[1..])[1..]))
  {
    var p, r := QuotePieces(fields), QuotePieces(fields[1..]);
    var y := r[1..];
    forall k | 3 <= k < |p|
      ensures p[k] == y[k - 3]
    {
      assert y[k - 3] == r[k - 2];
      assert (k - 2) % 2 == k % 2;
      assert k % 2 == 1 ==> (k - 2) / 2 == k / 2 - 1;
    }
    assert p == [""] + ([fields[0]] + ([","] + y));
  }

  lemma Assoc(a: string, b: string, c: string)
    ensures (a + b) + c == a + (b + c)
  {
  }

  lemma JoinPiecesCons(f: string, y: seq<string>)
    requires |y| >= 1
    ensures Join([""] + ([f] + ([","] + y)), '"') == Quote(f) + "," + Join([""] + y, '"')
  {
    var a := [","] + y;
    var b := [f] + a;
    JoinCons("", b, '"');
    JoinCons(f, a, '"');
    JoinCons(",", y, '"');
    JoinCons("", y, '"');
    var j := Join(y, '"');
    var q, comma := "\"", ",";
    var tail := comma + (q + j);
    calc {
      Join([""] + b, '"');
      "" + q + Join(b, '"');
      { assert "" + q == q; }
      q + Join(b, '"');
      q + ((f + q) + ((comma + q) + j));
      { Assoc(comma, q, j); Assoc(f, q, tail); }
      q + (f + (q + tail));
    }
    calc {
      Quote(f) + "," + Join([""] + y, '"');
      ((q + f) + q) + comma + ("" + q + j);
      { assert "" + q == q; }
      ((q + f) + q) + comma + (q + j);
      { Assoc((q + f) + q, comma, q + j); }
      ((q + f) + q) + tail;
      { Assoc(q + f, q, tail); Assoc(q, f, q + tail); }
      q + (f + (q + tail));
    }
  }

  /** A line is its quote pieces joined with double quotes. */
  lemma {:induction false} LineAsPieces(fields: seq<string>)
    requires |fields| >= 1
    ensures Line(fields) == Join(QuotePieces(fields), '"')
  {
    var f := fields[0];
    if |fields| == 1 {
      assert fields == [f];
      QuotePiecesSingle(f);
      assert QuotePieces(fields) == ["", f, ""];
      assert QuoteAll(fields) == [Quote(f)];
      var q := "\"";
      JoinCons(f, [""], '"');
      JoinCons("", [f, ""], '"');
      assert [""] + [f, ""] == ["", f, ""];
      assert [f] + [""] == [f, ""];
      calc {
        Join(["", f, ""], '"');
        "" + q + Join([f, ""], '"');
        { assert "" + q == q; }
        q + Join([f, ""], '"');
        q + (f + q + "");
        { assert f + q + "" == f + q; Assoc(q, f, q); }
        Quote(f);
        Line(fields);
      }
    } else {
      var rest := fields[1..];
      var y := QuotePieces(rest)[1..];
      assert QuotePieces(rest) == [""] + y;
      QuotePiecesCons(fields);
      LineAsPieces(rest);
      LineCons(fields);
      JoinPiecesCons(f, y);
    }
  }

  /** Cutting an exported line at its double quotes gives back its quote pieces. */
  lemma SplitLine(fields: seq<string>)
    requires |fields| >= 1
    requires forall i :: 0 <= i < |fields| ==> '"' !in fields[i]
    ensures Split(Line(fields), '"') == QuotePieces(fields)
  {
    var p := QuotePieces(fields);
    forall k | 0 <= k < |p|
      ensures '"' !in p[k]
    {
    }
    LineAsPieces(fields);
    SplitJoin(p, '"');
  }

  /** The quote pieces of a line pass the reader's checks and hold the fields. */
  lemma PiecesAccepted(fields: seq<string>)
    requires |fields| >= 1
    ensures var p := QuotePieces(fields);
      && |p| % 2 == 1 && |p| / 2 == |fields| && p[0] == "" && p[|p| - 1] == ""
      && (forall k :: 1 <= k < |fields| ==> IsCommaPiece(p, k))
      && seq(|fields|, i requires 0 <= i < |fields| => p[2 * i + 1]) == fields
  {
  }

  /** Reading an exported line gives back its fields when none holds a double quote. */
  lemma ParseLineRoundTrip(fields: seq<string>)
    requires |fields| >= 1
    requires forall i :: 0 <= i < |fields| ==> '"' !in fields[i]
    ensures ParseLine(Line(fields)) == Some(fields)
  {
    SplitLine(fields);
    PiecesAccepted(fields);
  }

  lemma LineAvoidsNewline(fields: seq<string>)
    requires forall i :: 0 <= i < |fields| ==> '\n' !in fields[i]
    ensures '\n' !in Line(fields)
  {
    var q := QuoteAll(fields);
    forall i | 0 <= i < |q|
      ensures '\n' !in q[i]
    {
      assert q[i] == "\"" + fields[i] + "\"";
    }
    JoinAvoids(q, ',', '\n');
  }

  /** Every row has a field, and no field holds a double quote or a line break. */
  predicate IsPlainTable(table: seq<seq<string>>)
  {
    forall i :: 0 <= i < |table| ==>
      |table[i]| >= 1 && forall j :: 0 <= j < |table[i]| ==> IsPlainField(table[i][j])
  }

  /** Cutting the joined lines of a plain table at line breaks and reading each line gives the table back. */
  lemma TableRoundTrip(table: seq<seq<string>>)
    requires |table| >= 1
    requires IsPlainTable(table)
    ensures var rows := Split(Join(Lines(table), '\n'), '\n');
      && |rows| == |table|
      && forall i :: 0 <= i < |table| ==> ParseLine(rows[i]) == Some(table[i])
  {
    var ls := Lines(table);
    forall i | 0 <= i < |table|
      ensures '\n' !in ls[i] && ParseLine(ls[i]) == Some(table[i])
    {
      var row := table[i];
      assert forall j :: 0 <= j < |row| ==> IsPlainField(row[j]);
      LineAvoidsNewline(row);
      ParseLineRoundTrip(row);
    }
    SplitJoin(ls, '\n');
  }

  /** Every exported field of `w` is plain. */
  predicate IsPlainWalk(w: WalkRecord, toFixed: (real, nat) -> string, show: real -> string)
  {
    forall j :: 0 <= j < FieldCount ==> IsPlainField(Fields(w, toFixed, show)[j])
  }

  lemma HeaderIsPlain()
    ensures |Header| == FieldCount
    ensures forall j :: 0 <= j < |Header| ==> IsPlainField(Header[j])
  {
  }

  lemma PlainTable(data: seq<WalkRecord>, toFixed: (real, nat) -> string, show: real -> string)
    requires forall i :: 0 <= i < |data| ==> IsPlainWalk(data[i], toFixed, show)
    ensures IsPlainTable(Table(data, toFixed, show))
  {
    var t := Table(data, toFixed, show);
    HeaderIsPlain();
    forall i | 0 <= i < |t|
      ensures |t[i]| >= 1 && forall j :: 0 <= j < |t[i]| ==> IsPlainField(t[i][j])
    {
      if i > 0 {
        assert t[i] == Fields(data[i - 1], toFixed, show);
        assert IsPlainWalk(data[i - 1], toFixed, show);
      }
    }
  }

  /**
   * The export has one line per row of the table (the header, then one per
   * walk), and each line reads back as its row, provided no field holds a
   * double quote or a line break.
   */
  lemma CsvRoundTrip(data: seq<WalkRecord>, toFixed: (real, nat) -> string, show: real -> string)
    requires forall i :: 0 <= i < |data| ==> IsPlainWalk(data[i], toFixed, show)
    ensures var rows := Split(ConvertToCsv(data, toFixed, show), '\n');
      && |rows| == |data| + 1
      && forall i :: 0 <= i < |rows| ==> ParseLine(rows[i]) == Some(Table(data, toFixed, show)[i])
  {
    PlainTable(data, toFixed, show);
    TableRoundTrip(Table(data, toFixed, show));
  }

  /** The first row of the table is the header and row `i + 1` is walk `i`. */
  lemma TableRows(data: seq<WalkRecord>, toFixed: (real, nat) -> string, show: real -> string)
    ensures Table(data, toFixed, show)[0] == Header
    ensures forall i :: 0 <= i < |data| ==> Table(data, toFixed, show)[i + 1] == Fields(data[i], toFixed, show)
  {
  }
}
